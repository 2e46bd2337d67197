/** Folding long content lines and reading them back (section 3.1 of RFC 5545). */
module ContentLines {
  import opened TextValues
  import opened WhiteSpace

  const RETURN: Unit := 13
  const SPACE: Unit := 32
  const TAB: Unit := 9
  const CRLF: Units := [RETURN, NEWLINE]
  const FOLD_LENGTH := 75

  // ----- code points -----

  predicate IsLead(c: Unit) { 0xD800 <= c < 0xDC00 }

  predicate IsTrail(c: Unit) { 0xDC00 <= c < 0xE000 }

  /** True when a surrogate pair starts at the position. */
  predicate PairAt(text: Units, i: nat) {
    i + 1 < |text| && IsLead(text[i]) && IsTrail(text[i + 1])
  }

  /** Units of the code point at a position. */
  function Width(text: Units, i: nat): nat {
    if PairAt(text, i) then 2 else 1
  }

  /** Octets of the code point at a position; reading past the end counts as the longest. */
  function Octets(text: Units, i: nat): nat {
    if i >= |text| || PairAt(text, i) then 4
    else if text[i] < 128 then 1
    else if text[i] < 2048 then 2
    else 3
  }

  /** Octets of a text in UTF-8, from a position on. */
  function OctetsFrom(text: Units, i: nat): nat
    decreases |text| - i
  {
    if i >= |text| then 0 else Octets(text, i) + OctetsFrom(text, i + Width(text, i))
  }

  // ----- folding -----

  /** How far the next chunk reaches, given the octets it already holds. */
  function ChunkEnd(text: Units, r: nat, octets: nat): (end: nat)
    requires r <= |text|
    ensures r <= end <= |text|
    ensures end == r ==> r == |text| || octets + Octets(text, r) > FOLD_LENGTH
    decreases |text| - r
  {
    if r == |text| || octets + Octets(text, r) > FOLD_LENGTH then r
    else ChunkEnd(text, r + Width(text, r), octets + Octets(text, r))
  }

  function Chunks(line: Units): (chunks: seq<Units>)
    ensures line == [] <==> chunks == []
  {
    if line == [] then []
    else
      var end := ChunkEnd(line, 0, 0);
      [line[..end]] + Chunks(line[end..])
  }

  /** Every chunk behind a line break and a space. */
  function Behind(chunks: seq<Units>): Units {
    if chunks == [] then [] else (CRLF + [SPACE] + chunks[0]) + Behind(chunks[1..])
  }

  function Fold(line: Units): Units {
    var text := Behind(Chunks(line));
    if |text| < 3 then [] else text[3..]
  }

  function Min(a: nat, b: nat): nat {
    if a < b then a else b
  }

  /** The first chunk joins the folded text; the chunks of the rest follow. */
  lemma BreakOff(text: Units, rest: Units, k: nat)
    requires rest != [] && k == ChunkEnd(rest, 0, 0)
    ensures text + Behind(Chunks(rest)) == (text + (CRLF + [SPACE] + rest[..k])) + Behind(Chunks(rest[k..]))
  {
    hide ChunkEnd;
    var chunks := Chunks(rest[k..]);
    assert Chunks(rest) == [rest[..k]] + chunks;
    assert ([rest[..k]] + chunks)[1..] == chunks;
    assert Behind([rest[..k]] + chunks) == (CRLF + [SPACE] + rest[..k]) + Behind(chunks);
  }

  /**
   * foldline: counts octets code point by code point and breaks before the count passes the
   * limit. At the end of the text it keeps counting past it until the limit forces the last break.
   */
  method FoldLine(line: Units) returns (folded: Units)
    ensures folded == Fold(line)
  {
    var text: Units := [];
    var rest := line;
    var r: nat, octets: nat := 0, 0;
    while |rest| > 0
      invariant text + Behind(Chunks(rest)) == Behind(Chunks(line))
      invariant octets <= FOLD_LENGTH
      invariant r == 0 ==> octets == 0
      invariant rest != [] ==>
                  ChunkEnd(rest, 0, 0) == if r < |rest| then ChunkEnd(rest, r, octets) else |rest|
      decreases |rest|, FOLD_LENGTH - octets
    {
      hide Behind, Chunks, Fold;
      var more := octets + Octets(rest, r);
      if more < FOLD_LENGTH + 1 {
        r := r + Width(rest, r);
        octets := more;
      } else {
        var k := Min(r, |rest|);
        BreakOff(text, rest, k);
        text := text + (CRLF + [SPACE] + rest[..k]);
        rest, r, octets := rest[k..], 0, 0;
      }
    }
    folded := if |text| < 3 then [] else text[3..];
  }

  // ----- what folding keeps -----

  function Concat(chunks: seq<Units>): Units {
    if chunks == [] then [] else chunks[0] + Concat(chunks[1..])
  }

  /** Two neighbouring chunks do not hold the halves of one surrogate pair. */
  predicate SplitsNoPair(a: Units, b: Units) {
    a != [] && b != [] ==> !(IsLead(a[|a| - 1]) && IsTrail(b[0]))
  }

  /**
   * Each chunk is non-empty and holds at most 75 octets of content, the first code point of the
   * next chunk would not have fitted, and no surrogate pair is split.
   */
  predicate WellFolded(chunks: seq<Units>) {
    chunks == []
    || (&& chunks[0] != [] && OctetsFrom(chunks[0], 0) <= FOLD_LENGTH
        && (|chunks| > 1 ==> SplitsNoPair(chunks[0], chunks[1]))
        && (|chunks| > 1 ==> OctetsFrom(chunks[0], 0) + Octets(chunks[1], 0) > FOLD_LENGTH)
        && WellFolded(chunks[1..]))
  }

  lemma {:induction false} OctetsOfTaken(text: Units, end: nat, i: nat, octets: nat)
    requires i <= |text| && end == ChunkEnd(text, i, octets) && octets <= FOLD_LENGTH
    ensures octets + OctetsFrom(text[..end], i) <= FOLD_LENGTH
    ensures end < |text| ==> octets + OctetsFrom(text[..end], i) + Octets(text, end) > FOLD_LENGTH
    ensures i < end < |text| ==> !PairAt(text, end - 1)
    decreases end - i
  {
    if i < end {
      var w := Width(text, i);
      assert Octets(text[..end], i) == Octets(text, i) && Width(text[..end], i) == w;
      OctetsOfTaken(text, end, i + w, octets + Octets(text, i));
    }
  }

  lemma FirstCodePoint(text: Units)
    requires text != []
    ensures Octets(text[..ChunkEnd(text, 0, 0)], 0) == Octets(text, 0)
  {
    assert ChunkEnd(text, 0, 0) == ChunkEnd(text, Width(text, 0), Octets(text, 0));
  }

  /** The chunks are the line again, and they are folded as promised. */
  lemma {:induction false} ChunksKeepLine(line: Units)
    ensures Concat(Chunks(line)) == line
    ensures WellFolded(Chunks(line))
    decreases |line|
  {
    if line != [] {
      hide Octets, OctetsFrom, PairAt, ChunkEnd;
      var end := ChunkEnd(line, 0, 0);
      var rest := line[end..];
      FirstChunk(line);
      ChunksKeepLine(rest);
      assert line == line[..end] + rest;
      assert Chunks(line)[1..] == Chunks(rest);
      if rest != [] {
        FirstCodePoint(rest);
        FirstChunk(rest);
        assert Chunks(rest)[0] == rest[..ChunkEnd(rest, 0, 0)];
        OctetsOfRest(line, end);
      }
    }
  }

  lemma FirstChunk(line: Units)
    requires line != []
    ensures var end := ChunkEnd(line, 0, 0);
      && end > 0 && OctetsFrom(line[..end], 0) <= FOLD_LENGTH
      && (end < |line| ==> OctetsFrom(line[..end], 0) + Octets(line, end) > FOLD_LENGTH)
      && (end < |line| ==> !(IsLead(line[end - 1]) && IsTrail(line[end])))
  {
    OctetsOfTaken(line, ChunkEnd(line, 0, 0), 0, 0);
  }

  lemma OctetsOfRest(line: Units, end: nat)
    requires end < |line|
    ensures Octets(line[end..], 0) == Octets(line, end)
  {
  }

  // ----- reading lines back -----

  predicate IsBlank(c: Unit) {
    c == SPACE || c == TAB
  }

  function FirstNonBlank(text: Units): (n: nat)
    ensures n <= |text| && (n < |text| ==> !IsBlank(text[n]))
    ensures forall i :: 0 <= i < n ==> IsBlank(text[i])
  {
    if text == [] || !IsBlank(text[0]) then 0 else 1 + FirstNonBlank(text[1..])
  }

  function TrimStart(text: Units): Units {
    if text != [] && IsSpaceUnit(text[0]) then TrimStart(text[1..]) else text
  }

  function TrimEnd(text: Units): Units {
    if text != [] && IsSpaceUnit(text[|text| - 1]) then TrimEnd(text[..|text| - 1]) else text
  }

  function Trim(text: Units): Units {
    TrimEnd(TrimStart(text))
  }

  function AfterBreak(text: Units, s: nat): (o: nat)
    requires s < |text|
    ensures s < o <= |text|
  {
    var n := IndexOf(text, NEWLINE, s);
    if n == -1 then |text| else n + 1
  }

  /** Where the content of the physical line from s to o ends. */
  function ContentEnd(text: Units, s: nat, o: nat): (end: nat)
    requires s < o <= |text|
    ensures end <= o
  {
    if IndexOf(text, NEWLINE, s) == -1 then o
    else if o > 1 && text[o - 2] == RETURN then o - 2
    else o - 1
  }

  /** slice: empty when the end lies before the start. */
  function Slice(text: Units, a: nat, b: nat): Units
    requires b <= |text|
  {
    if a <= b then text[a..b] else []
  }

  function NonEmpty(line: Units): seq<Units> {
    if line == [] then [] else [line]
  }

  /** The lines reported from a physical line on, with the logical line collected so far. */
  function LinesFrom(text: Units, s: nat, line: Units): seq<Units>
    requires s < |text|
    decreases |text| - s
  {
    var o := AfterBreak(text, s);
    var end := ContentEnd(text, s, o);
    var done := if IsBlank(text[s]) then [] else NonEmpty(line);
    var next := if IsBlank(text[s]) then line + Slice(text, s + 1, end) else Slice(text, s, end);
    done + (if o == |text| then NonEmpty(Trim(next)) else LinesFrom(text, o, next))
  }

  function LogicalLines(text: Units): seq<Units> {
    var s := FirstNonBlank(text);
    if s == |text| then [] else LinesFrom(text, s, [])
  }

  /** C._eachLine, collecting the lines it reports. A text of blanks only reports nothing. */
  method EachLine(text: Units) returns (lines: seq<Units>)
    ensures lines == LogicalLines(text)
  {
    lines := [];
    var s: nat := FirstNonBlank(text);
    if s == |text| {
      return;
    }
    var line: Units := [];
    var o: nat := s;
    assert lines + Pending(text, s, line) == LogicalLines(text);
    while o != |text|
      invariant s <= o <= |text| && o == s
      invariant lines + Pending(text, s, line) == LogicalLines(text)
      decreases |text| - o
    {
      hide IsBlank, Trim, LinesFrom, ContentEnd, AfterBreak, Pending;
      ghost var before := lines;
      o := AfterBreak(text, s);
      var end := ContentEnd(text, s, o);
      PendingStep(text, s, line, before);
      if IsBlank(text[s]) {
        line := line + Slice(text, s + 1, end);
      } else {
        if line != [] {
          lines := lines + [line];
        }
        assert lines == before + NonEmpty(line);
        line := Slice(text, s, end);
      }
      assert lines + Pending(text, o, line) == LogicalLines(text);
      s := o;
    }
    line := Trim(line);
    if |line| > 0 {
      lines := lines + [line];
    }
  }

  /** What is still to be reported at a physical line, or at the end of the text. */
  function Pending(text: Units, s: nat, line: Units): seq<Units>
    requires s <= |text|
  {
    if s == |text| then NonEmpty(Trim(line)) else LinesFrom(text, s, line)
  }

  lemma PendingStep(text: Units, s: nat, line: Units, lines: seq<Units>)
    requires s < |text|
    ensures var o := AfterBreak(text, s);
      var end := ContentEnd(text, s, o);
      lines + Pending(text, s, line)
      == if IsBlank(text[s]) then lines + Pending(text, o, line + Slice(text, s + 1, end))
         else lines + NonEmpty(line) + Pending(text, o, Slice(text, s, end))
  {
    hide Pending;
    PendingHere(text, s, line);
    var o := AfterBreak(text, s);
    var rest := Pending(text, o, Slice(text, s, ContentEnd(text, s, o)));
    assert lines + (NonEmpty(line) + rest) == lines + NonEmpty(line) + rest;
  }

  lemma PendingHere(text: Units, s: nat, line: Units)
    requires s < |text|
    ensures var o := AfterBreak(text, s);
      var end := ContentEnd(text, s, o);
      Pending(text, s, line)
      == if IsBlank(text[s]) then Pending(text, o, line + Slice(text, s + 1, end))
         else NonEmpty(line) + Pending(text, o, Slice(text, s, end))
  {
    var o := AfterBreak(text, s);
    var rest := Pending(text, o, line + Slice(text, s + 1, ContentEnd(text, s, o)));
    assert [] + rest == rest;
  }

  // ----- folding and reading back -----

  /** A content line as the printer makes them. */
  predicate Foldable(line: Units) {
    line != [] && NEWLINE !in line && !IsBlank(line[0])
  }

  /** The folded lines, each ended by a line break, as the printer joins them. */
  function Document(lines: seq<Units>): Units {
    if lines == [] then [] else (Fold(lines[0]) + CRLF) + Document(lines[1..])
  }

  /** Continuation lines: a space, the chunk, a line break. */
  function Continued(chunks: seq<Units>): Units {
    if chunks == [] then [] else ([SPACE] + chunks[0] + CRLF) + Continued(chunks[1..])
  }

  lemma {:induction false} BehindIsContinued(chunks: seq<Units>)
    ensures Behind(chunks) + CRLF == CRLF + Continued(chunks)
  {
    if chunks == [] {
      assert [] + CRLF == CRLF + [];
    } else {
      BehindIsContinued(chunks[1..]);
      var head := CRLF + [SPACE] + chunks[0];
      assert (head + Behind(chunks[1..])) + CRLF == head + (Behind(chunks[1..]) + CRLF);
      assert head + (CRLF + Continued(chunks[1..])) == CRLF + (([SPACE] + chunks[0] + CRLF) + Continued(chunks[1..]));
    }
  }

  /** A folded line is its first chunk and the continuation lines. */
  lemma FoldedLine(line: Units)
    requires line != []
    ensures Fold(line) + CRLF == Chunks(line)[0] + CRLF + Continued(Chunks(line)[1..])
  {
    var chunks := Chunks(line);
    var head := CRLF + [SPACE] + chunks[0];
    assert Behind(chunks) == head + Behind(chunks[1..]);
    assert (head + Behind(chunks[1..]))[3..] == chunks[0] + Behind(chunks[1..]);
    BehindIsContinued(chunks[1..]);
    assert (chunks[0] + Behind(chunks[1..])) + CRLF == chunks[0] + (Behind(chunks[1..]) + CRLF);
    assert chunks[0] + (CRLF + Continued(chunks[1..])) == chunks[0] + CRLF + Continued(chunks[1..]);
  }

  /** A physical line without a newline of its own ends at the line break behind it. */
  lemma PhysicalLine(prefix: Units, content: Units, rest: Units)
    requires NEWLINE !in content
    ensures var text := prefix + (content + CRLF + rest);
      var next := |prefix| + |content| + 2;
      && AfterBreak(text, |prefix|) == next
      && ContentEnd(text, |prefix|, next) == next - 2
      && text[|prefix|] == (content + CRLF)[0]
      && (content != [] ==> Slice(text, |prefix| + 1, next - 2) == content[1..])
      && Slice(text, |prefix|, next - 2) == content
  {
    var text := prefix + (content + CRLF + rest);
    var next := |prefix| + |content| + 2;
    forall i | |prefix| <= i < next - 1
      ensures text[i] != NEWLINE
    {
      assert text[i] == (content + CRLF + rest)[i - |prefix|];
    }
    assert text[next - 1] == NEWLINE && text[next - 2] == RETURN;
    assert IndexOf(text, NEWLINE, |prefix|) == next - 1;
    assert text[|prefix|..next - 2] == content;
    if content != [] {
      assert text[|prefix| + 1..next - 2] == content[1..];
    }
  }

  /** Reading one continuation line appends its chunk. */
  lemma ReadContinuation(prefix: Units, chunk: Units, rest: Units, line: Units)
    requires NEWLINE !in chunk
    ensures var text := prefix + ([SPACE] + chunk + CRLF + rest);
      Pending(text, |prefix|, line) == Pending(text, |prefix| + |chunk| + 3, line + chunk)
  {
    hide Pending, Slice, AfterBreak, ContentEnd;
    var content: Units := [SPACE] + chunk;
    var text := prefix + (content + CRLF + rest);
    PhysicalLine(prefix, content, rest);
    PendingHere(text, |prefix|, line);
    assert content[1..] == chunk;
  }

  /** Reading continuation lines appends their chunks to the line collected so far. */
  lemma {:induction false} ReadContinued(prefix: Units, chunks: seq<Units>, rest: Units, line: Units)
    requires forall c :: c in chunks ==> NEWLINE !in c
    ensures var text := prefix + (Continued(chunks) + rest);
      Pending(text, |prefix|, line)
      == Pending(text, |prefix| + |Continued(chunks)|, line + Concat(chunks))
    decreases |chunks|
  {
    hide Pending;
    if chunks == [] {
      assert line + [] == line;
    } else {
      var head := [SPACE] + chunks[0] + CRLF;
      var after := Continued(chunks[1..]) + rest;
      assert Continued(chunks) + rest == head + after;
      assert prefix + (head + after) == (prefix + head) + after;
      ReadContinuation(prefix, chunks[0], after, line);
      ReadContinued(prefix + head, chunks[1..], rest, line + chunks[0]);
      assert (line + chunks[0]) + Concat(chunks[1..]) == line + Concat(chunks);
    }
  }

  lemma ChunksHaveNoNewline(line: Units)
    requires NEWLINE !in line
    ensures forall c :: c in Chunks(line) ==> NEWLINE !in c
    decreases |line|
  {
    if line != [] {
      ChunksHaveNoNewline(line[ChunkEnd(line, 0, 0)..]);
    }
  }

  /** Reading one folded line reports the line before it and collects the line itself. */
  lemma ReadFolded(prefix: Units, line: Units, rest: Units, collected: Units)
    requires Foldable(line)
    ensures var text := prefix + ((Fold(line) + CRLF) + rest);
      Pending(text, |prefix|, collected)
      == NonEmpty(collected) + Pending(text, |prefix| + |Fold(line) + CRLF|, line)
  {
    hide Pending, Fold, IsBlank, Slice, AfterBreak, ContentEnd, Chunks, Continued;
    var chunks := Chunks(line);
    var text := prefix + ((Fold(line) + CRLF) + rest);
    FoldedLine(line);
    ChunksHaveNoNewline(line);
    ChunksKeepLine(line);
    var after := Continued(chunks[1..]) + rest;
    assert (Fold(line) + CRLF) + rest == chunks[0] + CRLF + after;
    PhysicalLine(prefix, chunks[0], after);
    assert line == chunks[0] + Concat(chunks[1..]);
    assert text[|prefix|] == line[0];
    PendingHere(text, |prefix|, collected);
    var next := prefix + (chunks[0] + CRLF);
    assert text == next + after;
    ReadContinued(next, chunks[1..], rest, chunks[0]);
    assert chunks[0] + Concat(chunks[1..]) == line;
  }

  lemma {:induction false} ReadDocument(prefix: Units, lines: seq<Units>, collected: Units)
    requires lines != [] && forall l :: l in lines ==> Foldable(l)
    ensures Pending(prefix + Document(lines), |prefix|, collected)
            == NonEmpty(collected) + lines[..|lines| - 1] + NonEmpty(Trim(lines[|lines| - 1]))
    decreases |lines|
  {
    hide Pending, Fold, Foldable, Trim, NonEmpty;
    var line, rest := lines[0], Document(lines[1..]);
    ReadFolded(prefix, line, rest, collected);
    var next := prefix + (Fold(line) + CRLF);
    assert prefix + Document(lines) == next + rest;
    if |lines| == 1 {
      assert rest == [] && next + rest == next;
      PendingAtEnd(next, line);
      assert NonEmpty(collected) + lines[..0] == NonEmpty(collected);
    } else {
      ReadDocument(next, lines[1..], line);
      SomeLine(line);
      FirstOfList(NonEmpty(collected), lines, NonEmpty(Trim(lines[|lines| - 1])));
    }
  }

  lemma PendingAtEnd(text: Units, line: Units)
    ensures Pending(text, |text|, line) == NonEmpty(Trim(line))
  {
  }

  lemma FirstOfList(a: seq<Units>, lines: seq<Units>, b: seq<Units>)
    requires |lines| > 1
    ensures lines[1..][|lines| - 2] == lines[|lines| - 1]
    ensures a + ([lines[0]] + lines[1..][..|lines| - 2] + b) == a + lines[..|lines| - 1] + b
  {
    assert lines[..|lines| - 1] == [lines[0]] + lines[1..][..|lines| - 2];
  }

  lemma SomeLine(line: Units)
    requires Foldable(line)
    ensures NonEmpty(line) == [line]
  {
  }

  /**
   * Folding a list of content lines and reading the text back returns every line but the last
   * unchanged, and the last one trimmed.
   */
  lemma UnfoldFold(lines: seq<Units>)
    requires lines != [] && forall l :: l in lines ==> Foldable(l)
    ensures LogicalLines(Document(lines)) == lines[..|lines| - 1] + NonEmpty(Trim(lines[|lines| - 1]))
  {
    hide LinesFrom, Fold, Trim, Chunks;
    var text := Document(lines);
    StartsWithContent(lines[0], Document(lines[1..]));
    assert FirstNonBlank(text) == 0;
    ReadDocument([], lines, []);
    assert [] + text == text;
    assert [] + lines[..|lines| - 1] == lines[..|lines| - 1];
    assert LogicalLines(text) == Pending(text, 0, []);
  }

  lemma StartsWithContent(line: Units, rest: Units)
    requires Foldable(line)
    ensures (Fold(line) + CRLF) + rest != [] && !IsBlank(((Fold(line) + CRLF) + rest)[0])
  {
    hide Fold, Continued;
    FoldedLine(line);
    ChunksKeepLine(line);
    assert line == Chunks(line)[0] + Concat(Chunks(line)[1..]);
  }

  /** A reported line is never empty and never holds a newline, whatever the text. */
  lemma {:induction false} ReportedLines(text: Units, s: nat, line: Units)
    requires s < |text| && NEWLINE !in line
    ensures forall l :: l in LinesFrom(text, s, line) ==> l != [] && NEWLINE !in l
    decreases |text| - s
  {
    var o := AfterBreak(text, s);
    var end := ContentEnd(text, s, o);
    var next := if IsBlank(text[s]) then line + Slice(text, s + 1, end) else Slice(text, s, end);
    forall i | s <= i < end
      ensures text[i] != NEWLINE
    {
    }
    assert NEWLINE !in next;
    if o < |text| {
      ReportedLines(text, o, next);
    } else {
      TrimKeeps(next);
    }
  }

  lemma TrimKeeps(text: Units)
    requires NEWLINE !in text
    ensures NEWLINE !in Trim(text)
  {
    TrimStartKeeps(text);
    TrimEndKeeps(TrimStart(text));
  }

  lemma TrimStartKeeps(text: Units)
    requires NEWLINE !in text
    ensures NEWLINE !in TrimStart(text)
  {
  }

  lemma TrimEndKeeps(text: Units)
    requires NEWLINE !in text
    ensures NEWLINE !in TrimEnd(text)
  {
  }

  // ----- the limit of the standard -----

  /** Octets of the physical lines a line is folded into: the space of a continuation counts. */
  predicate WithinStandard(chunks: seq<Units>) {
    chunks == []
    || (OctetsFrom(chunks[0], 0) <= FOLD_LENGTH && forall c :: c in chunks[1..] ==> 1 + OctetsFrom(c, 0) <= FOLD_LENGTH)
  }

  /** Where a continuation line of the standard ends: its leading space leaves one octet less. */
  function StandardEnd(text: Units, r: nat, octets: nat): (end: nat)
    requires r <= |text|
    ensures r <= end <= |text|
    ensures end == r ==> r == |text| || octets + Octets(text, r) > FOLD_LENGTH - 1
    decreases |text| - r
  {
    if r == |text| || octets + Octets(text, r) > FOLD_LENGTH - 1 then r
    else StandardEnd(text, r + Width(text, r), octets + Octets(text, r))
  }

  function StandardRest(text: Units): seq<Units> {
    if text == [] then []
    else
      var end := StandardEnd(text, 0, 0);
      [text[..end]] + StandardRest(text[end..])
  }

  /** The chunks of a line that is folded as late as section 3.1 of RFC 5545 allows. */
  function StandardChunks(line: Units): seq<Units> {
    if line == [] then []
    else
      var end := ChunkEnd(line, 0, 0);
      [line[..end]] + StandardRest(line[end..])
  }

  predicate FitsBehindSpace(chunks: seq<Units>) {
    forall k :: 0 <= k < |chunks| ==> 1 + OctetsFrom(chunks[k], 0) <= FOLD_LENGTH
  }

  /** A chunk of the code is one of the standard exactly when it leaves room for the space. */
  lemma {:induction false} EndsAgree(text: Units, r: nat, octets: nat)
    requires r <= |text| && octets < FOLD_LENGTH
    ensures var end := ChunkEnd(text, r, octets);
      octets + OctetsFrom(text[..end], r) < FOLD_LENGTH <==> StandardEnd(text, r, octets) == end
    decreases |text| - r
  {
    var end := ChunkEnd(text, r, octets);
    if r < end {
      var w, o := Width(text, r), Octets(text, r);
      assert Octets(text[..end], r) == o && Width(text[..end], r) == w;
      if octets + o < FOLD_LENGTH {
        EndsAgree(text, r + w, octets + o);
      }
    }
  }

  lemma {:induction false} RestAgrees(text: Units)
    ensures FitsBehindSpace(Chunks(text)) <==> Chunks(text) == StandardRest(text)
    decreases |text|
  {
    if text != [] {
      hide Octets, Width, OctetsFrom, ChunkEnd, StandardEnd;
      var end, limit := ChunkEnd(text, 0, 0), StandardEnd(text, 0, 0);
      EndsAgree(text, 0, 0);
      RestAgrees(text[end..]);
      var chunks, others := Chunks(text), StandardRest(text);
      assert chunks == [text[..end]] + Chunks(text[end..]);
      assert others[0] == text[..limit] && others[1..] == StandardRest(text[limit..]);
      assert chunks[1..] == Chunks(text[end..]);
      FitsSplit(text[..end], Chunks(text[end..]));
    }
  }

  lemma FitsSplit(first: Units, chunks: seq<Units>)
    ensures FitsBehindSpace([first] + chunks) <==> 1 + OctetsFrom(first, 0) <= FOLD_LENGTH && FitsBehindSpace(chunks)
  {
    hide OctetsFrom;
    var all := [first] + chunks;
    assert all[0] == first && forall k :: 0 <= k < |chunks| ==> all[k + 1] == chunks[k];
    assert forall k :: 0 < k < |all| ==> all[k] == chunks[k - 1];
  }

  lemma WithinSplit(first: Units, chunks: seq<Units>)
    requires OctetsFrom(first, 0) <= FOLD_LENGTH
    ensures WithinStandard([first] + chunks) <==> FitsBehindSpace(chunks)
  {
    assert ([first] + chunks)[1..] == chunks;
  }

  /** No chunk could take the first character of the next one and keep to 75 octets without the space. */
  predicate LeavesNoRoom(chunks: seq<Units>) {
    forall k :: 0 <= k < |chunks| - 1 ==> OctetsFrom(chunks[k], 0) + Octets(chunks[k + 1], 0) > FOLD_LENGTH
  }

  /** The code ends a continuation where the standard does exactly when it has no room for the next character. */
  lemma {:induction false} EndsMeet(text: Units, r: nat, octets: nat)
    requires r <= |text| && octets < FOLD_LENGTH
    ensures var end := StandardEnd(text, r, octets);
      ChunkEnd(text, r, octets) == end
      <==> end == |text| || octets + OctetsFrom(text[..end], r) + Octets(text, end) > FOLD_LENGTH
    decreases |text| - r
  {
    var end := StandardEnd(text, r, octets);
    if r < end {
      var w, o := Width(text, r), Octets(text, r);
      assert Octets(text[..end], r) == o && Width(text[..end], r) == w;
      EndsMeet(text, r + w, octets + o);
    }
  }

  lemma {:induction false} RestLeavesNoRoom(text: Units)
    ensures Chunks(text) == StandardRest(text) <==> LeavesNoRoom(StandardRest(text))
    decreases |text|
  {
    if text != [] {
      var end, limit := ChunkEnd(text, 0, 0), StandardEnd(text, 0, 0);
      hide Octets, Width, OctetsFrom, ChunkEnd, StandardEnd, LeavesNoRoom;
      EndsMeet(text, 0, 0);
      assert 0 < limit by { FirstStandardEnd(text); }
      var rest := text[limit..];
      RestLeavesNoRoom(rest);
      assert StandardRest(text) == [text[..limit]] + StandardRest(rest);
      assert Chunks(text)[0] == text[..end] && Chunks(text)[1..] == Chunks(text[end..]);
      assert StandardRest(text)[0] == text[..limit] && StandardRest(text)[1..] == StandardRest(rest);
      NoRoomSplit(text[..limit], StandardRest(rest));
      if rest != [] {
        OctetsOfRest(text, limit);
        FirstOfStandardRest(rest);
      }
    }
  }

  lemma FirstStandardEnd(text: Units)
    requires text != []
    ensures StandardEnd(text, 0, 0) > 0
  {
  }

  lemma FirstOfStandardRest(text: Units)
    requires text != []
    ensures StandardRest(text) != [] && Octets(StandardRest(text)[0], 0) == Octets(text, 0)
  {
    var end := StandardEnd(text, 0, 0);
    assert end >= Width(text, 0);
  }

  lemma NoRoomSplit(first: Units, chunks: seq<Units>)
    ensures LeavesNoRoom([first] + chunks)
      <==> LeavesNoRoom(chunks) && (chunks != [] ==> OctetsFrom(first, 0) + Octets(chunks[0], 0) > FOLD_LENGTH)
  {
    hide OctetsFrom, Octets;
    var all := [first] + chunks;
    assert all[0] == first && forall k :: 0 <= k < |chunks| ==> all[k + 1] == chunks[k];
    assert forall k :: 0 < k < |all| ==> all[k] == chunks[k - 1];
  }

  /**
   * The code keeps to the standard exactly on the lines whose continuations, folded as the standard
   * does, leave no room for the next character once the leading space is not counted; it then
   * folds as the standard does.
   */
  lemma FoldWithinStandard(line: Units)
    ensures WithinStandard(Chunks(line)) <==> (line != [] ==> LeavesNoRoom(StandardChunks(line)[1..]))
    ensures WithinStandard(Chunks(line)) <==> Chunks(line) == StandardChunks(line)
  {
    if line != [] {
      hide Octets, Width, OctetsFrom, ChunkEnd, LeavesNoRoom;
      var end := ChunkEnd(line, 0, 0);
      FirstChunk(line);
      RestAgrees(line[end..]);
      RestLeavesNoRoom(line[end..]);
      WithinSplit(line[..end], Chunks(line[end..]));
      assert Chunks(line)[1..] == Chunks(line[end..]) && StandardChunks(line)[1..] == StandardRest(line[end..]);
    }
  }

  // ----- counting octets across chunks -----

  lemma {:induction false} OctetsShift(text: Units, end: nat, i: nat)
    requires end <= |text|
    ensures OctetsFrom(text[end..], i) == OctetsFrom(text, end + i)
    decreases |text| - end - i
  {
    if end + i < |text| {
      assert Octets(text[end..], i) == Octets(text, end + i) && Width(text[end..], i) == Width(text, end + i);
      OctetsShift(text, end, i + Width(text, end + i));
    }
  }

  lemma {:induction false} OctetsSplit(text: Units, end: nat, i: nat, octets: nat)
    requires i <= |text| && end == ChunkEnd(text, i, octets)
    ensures OctetsFrom(text, i) == OctetsFrom(text[..end], i) + OctetsFrom(text, end)
    decreases |text| - i
  {
    if i < end {
      var w := Width(text, i);
      assert Octets(text[..end], i) == Octets(text, i) && Width(text[..end], i) == w;
      OctetsSplit(text, end, i + w, octets + Octets(text, i));
    }
  }

  /** The octets of a line are those of its first chunk and those of the rest. */
  lemma FirstAndRest(line: Units)
    requires line != []
    ensures var end := ChunkEnd(line, 0, 0);
      && Chunks(line) == [line[..end]] + Chunks(line[end..])
      && OctetsFrom(line, 0) == OctetsFrom(line[..end], 0) + OctetsFrom(line[end..], 0)
      && OctetsFrom(line[..end], 0) <= FOLD_LENGTH
      && (line[end..] != [] ==> OctetsFrom(line[..end], 0) >= FOLD_LENGTH - 3)
  {
    hide OctetsFrom, ChunkEnd;
    var end := ChunkEnd(line, 0, 0);
    OctetsSplit(line, end, 0, 0);
    OctetsShift(line, end, 0);
    FirstChunk(line);
  }

  lemma {:induction false} ChunksWithinTotal(line: Units)
    ensures forall k :: 0 <= k < |Chunks(line)| ==> OctetsFrom(Chunks(line)[k], 0) <= OctetsFrom(line, 0)
    decreases |line|
  {
    if line != [] {
      hide OctetsFrom, ChunkEnd;
      FirstAndRest(line);
      var rest := line[ChunkEnd(line, 0, 0)..];
      ChunksWithinTotal(rest);
      assert forall k :: 0 < k < |Chunks(line)| ==> Chunks(line)[k] == Chunks(rest)[k - 1];
    }
  }

  /** Lines of at most 146 octets keep to the standard. */
  lemma ShortWithinStandard(line: Units)
    requires OctetsFrom(line, 0) <= 2 * FOLD_LENGTH - 4
    ensures WithinStandard(Chunks(line))
  {
    if line != [] {
      hide OctetsFrom, ChunkEnd, Chunks;
      FirstAndRest(line);
      var end := ChunkEnd(line, 0, 0);
      ChunksWithinTotal(line[end..]);
      WithinSplit(line[..end], Chunks(line[end..]));
    }
  }

  // ----- a line that breaks the limit -----

  lemma {:induction false} AsciiRun(text: Units, r: nat, octets: nat, n: nat)
    requires r + n <= |text| && octets + n <= FOLD_LENGTH && forall i :: r <= i < r + n ==> text[i] < 128
    ensures ChunkEnd(text, r, octets) == ChunkEnd(text, r + n, octets + n)
    ensures OctetsFrom(text, r) == n + OctetsFrom(text, r + n)
    decreases n
  {
    if n > 0 {
      AsciiRun(text, r + 1, octets + 1, n - 1);
    }
  }

  const LETTER: Unit := 97
  const SMILE: Units := [0xD83D, 0xDE00]

  /** 72 letters, a character of four octets and 71 letters. */
  function TightLine(): Units {
    seq(72, _ => LETTER) + (SMILE + seq(71, _ => LETTER))
  }

  /** One octet more than ShortWithinStandard allows, and the second line has 76 octets. */
  lemma TightLineExceeds()
    ensures OctetsFrom(TightLine(), 0) == 2 * FOLD_LENGTH - 3
    ensures !WithinStandard(Chunks(TightLine()))
  {
    hide ChunkEnd, OctetsFrom, Chunks;
    var line, rest := TightLine(), SMILE + seq(71, _ => LETTER);
    assert line[72..] == rest;
    LettersThenSmile(line);
    SmileThenLetters(rest);
    FirstAndRest(line);
    FirstAndRest(rest);
    assert rest[..73] == rest;
    WithinSplit(line[..72], Chunks(rest));
    assert Chunks(rest)[0] == rest;
  }

  lemma LettersThenSmile(line: Units)
    requires |line| > 72 && PairAt(line, 72) && forall i :: 0 <= i < 72 ==> line[i] < 128
    ensures ChunkEnd(line, 0, 0) == 72 && OctetsFrom(line[..72], 0) == 72
  {
    AsciiRun(line, 0, 0, 72);
    AsciiRun(line[..72], 0, 0, 72);
  }

  lemma SmileThenLetters(rest: Units)
    requires |rest| == 73 && PairAt(rest, 0) && forall i :: 2 <= i < 73 ==> rest[i] < 128
    ensures ChunkEnd(rest, 0, 0) == 73 && OctetsFrom(rest, 0) == FOLD_LENGTH
  {
    AsciiRun(rest, 2, 4, 71);
  }

  // ----- lines of one kind of character -----

  /** All code points take w octets each; those of four octets are surrogate pairs. */
  predicate Uniform(text: Units, w: nat) {
    if w == 4 then |text| % 2 == 0 && forall i :: 0 <= i < |text| && i % 2 == 0 ==> PairAt(text, i)
    else forall i :: 0 <= i < |text| ==> Octets(text, i) == w
  }

  predicate IsMultiple(n: nat, w: nat)
    requires w > 0
  {
    n == 0 || (n >= w && IsMultiple(n - w, w))
  }

  lemma {:induction false} EvenMultiple(n: nat, w: nat)
    requires (w == 2 || w == 4) && IsMultiple(n, w)
    ensures n % 2 == 0
  {
    if n > 0 {
      EvenMultiple(n - w, w);
    }
  }

  lemma {:induction false} ThreeMultiple(n: nat)
    requires IsMultiple(n, 3)
    ensures n % 3 == 0
  {
    if n > 0 {
      ThreeMultiple(n - 3);
    }
  }

  lemma {:induction false} UniformChunk(text: Units, w: nat, r: nat, octets: nat)
    requires 1 <= w <= 4 && Uniform(text, w) && r <= |text| && (w == 4 ==> r % 2 == 0) && IsMultiple(octets, w)
    ensures var end := ChunkEnd(text, r, octets);
      (w == 4 ==> end % 2 == 0) && IsMultiple(octets + OctetsFrom(text[..end], r), w)
    decreases |text| - r
  {
    hide Octets, Width, Uniform, IsMultiple;
    var end := ChunkEnd(text, r, octets);
    if r < end {
      UniformStep(text, w, r);
      OctetsOfPrefix(text, r, end);
      assert IsMultiple(octets + w, w) by { NextMultiple(octets, w); }
      UniformChunk(text, w, r + Width(text, r), octets + w);
    }
  }

  lemma NextMultiple(n: nat, w: nat)
    requires w > 0 && IsMultiple(n, w)
    ensures IsMultiple(n + w, w)
  {
  }

  lemma UniformStep(text: Units, w: nat, r: nat)
    requires 1 <= w <= 4 && Uniform(text, w) && r < |text| && (w == 4 ==> r % 2 == 0)
    ensures Octets(text, r) == w && Width(text, r) >= 1 && (w == 4 ==> Width(text, r) == 2)
  {
  }

  lemma OctetsOfPrefix(text: Units, r: nat, end: nat)
    requires r + Width(text, r) <= end <= |text|
    ensures Octets(text[..end], r) == Octets(text, r) && Width(text[..end], r) == Width(text, r)
  {
  }

  lemma UniformRest(text: Units, w: nat, end: nat)
    requires Uniform(text, w) && end <= |text| && (w == 4 ==> end % 2 == 0)
    ensures Uniform(text[end..], w)
  {
    if w == 4 {
      forall i | 0 <= i < |text[end..]| && i % 2 == 0
        ensures PairAt(text[end..], i)
      {
        assert PairAt(text, end + i);
      }
    } else {
      forall i | 0 <= i < |text[end..]|
        ensures Octets(text[end..], i) == w
      {
        assert Octets(text, end + i) == w;
      }
    }
  }

  /** The first chunk of such a line: as many whole characters as 75 octets hold, or the line. */
  lemma UniformFirst(line: Units, w: nat)
    requires 1 <= w <= 4 && Uniform(line, w) && line != []
    ensures var end := ChunkEnd(line, 0, 0);
      && Uniform(line[end..], w) && IsMultiple(OctetsFrom(line[..end], 0), w)
      && (line[end..] != [] ==> OctetsFrom(line[..end], 0) + w > FOLD_LENGTH)
  {
    var end := ChunkEnd(line, 0, 0);
    UniformChunk(line, w, 0, 0);
    UniformRest(line, w, end);
    FirstChunk(line);
  }

  lemma {:induction false} EvenChunksFit(line: Units, w: nat)
    requires (w == 2 || w == 4) && Uniform(line, w)
    ensures FitsBehindSpace(Chunks(line))
    decreases |line|
  {
    if line != [] {
      hide OctetsFrom, ChunkEnd, Octets, Uniform;
      UniformFirst(line, w);
      FirstAndRest(line);
      var end := ChunkEnd(line, 0, 0);
      EvenChunksFit(line[end..], w);
      EvenMultiple(OctetsFrom(line[..end], 0), w);
      FitsSplit(line[..end], Chunks(line[end..]));
    }
  }

  /**
   * Lines of characters of one size: those of two or four octets always keep to the standard, those
   * of one or three exactly below 150 octets, since 75 is a multiple of one and three only.
   */
  lemma UniformWithinStandard(line: Units, w: nat)
    requires 1 <= w <= 4 && Uniform(line, w)
    ensures WithinStandard(Chunks(line)) <==> w == 2 || w == 4 || OctetsFrom(line, 0) < 2 * FOLD_LENGTH
  {
    if line != [] {
      hide OctetsFrom, ChunkEnd, Chunks, Octets, Uniform;
      UniformFirst(line, w);
      FirstAndRest(line);
      var end := ChunkEnd(line, 0, 0);
      var rest := line[end..];
      WithinSplit(line[..end], Chunks(rest));
      if w == 3 {
        ThreeMultiple(OctetsFrom(line[..end], 0));
      }
      if w == 2 || w == 4 {
        EvenChunksFit(rest, w);
      } else {
        OddChunksFit(rest, w);
        NoOctets(rest);
      }
    }
  }

  lemma OddChunksFit(text: Units, w: nat)
    requires (w == 1 || w == 3) && Uniform(text, w)
    ensures FitsBehindSpace(Chunks(text)) <==> OctetsFrom(text, 0) < FOLD_LENGTH
  {
    hide OctetsFrom, ChunkEnd, Chunks, Octets, Uniform;
    NoOctets(text);
    ChunksWithinTotal(text);
    if text != [] {
      UniformFirst(text, w);
      FirstAndRest(text);
      if w == 3 {
        ThreeMultiple(OctetsFrom(text[..ChunkEnd(text, 0, 0)], 0));
      }
      NoOctets(text[ChunkEnd(text, 0, 0)..]);
      assert Chunks(text)[0] == text[..ChunkEnd(text, 0, 0)];
    }
  }

  lemma NoOctets(text: Units)
    ensures text == [] ==> OctetsFrom(text, 0) == 0
  {
  }
}
