/** Parsing and classifying IP addresses (section 2.2 of RFC 4291). */
module Addresses {
  import opened Wrappers

  // ----- splitting and joining -----

  /** The parts between separators; an empty text has one empty part. */
  function Split(text: string, sep: char): (parts: seq<string>)
    ensures |parts| > 0
  {
    if text == "" then [""]
    else if text[0] == sep then [""] + Split(text[1..], sep)
    else
      var rest := Split(text[1..], sep);
      [[text[0]] + rest[0]] + rest[1..]
  }

  function Join(parts: seq<string>, sep: char): string {
    if parts == [] then ""
    else if |parts| == 1 then parts[0]
    else parts[0] + [sep] + Join(parts[1..], sep)
  }

  lemma {:induction false} SplitPrefix(part: string, sep: char, rest: string)
    requires sep !in part
    ensures Split(part + [sep] + rest, sep) == [part] + Split(rest, sep)
  {
    if part == "" {
      assert part + [sep] + rest == [sep] + rest;
    } else {
      assert (part + [sep] + rest)[1..] == part[1..] + [sep] + rest;
      SplitPrefix(part[1..], sep, rest);
      assert [part[0]] + part[1..] == part;
    }
  }

  lemma {:induction false} SplitSingle(part: string, sep: char)
    requires sep !in part
    ensures Split(part, sep) == [part]
  {
    if part != "" {
      SplitSingle(part[1..], sep);
      assert [part[0]] + part[1..] == part;
    }
  }

  /** Splitting undoes joining when no part holds the separator. */
  lemma {:induction false} SplitJoin(parts: seq<string>, sep: char)
    requires parts != [] && forall i :: 0 <= i < |parts| ==> sep !in parts[i]
    ensures Split(Join(parts, sep), sep) == parts
  {
    if |parts| == 1 {
      SplitSingle(parts[0], sep);
    } else {
      SplitJoin(parts[1..], sep);
      SplitPrefix(parts[0], sep, Join(parts[1..], sep));
    }
  }

  /** Joining undoes splitting, and no part holds the separator. */
  lemma {:induction false} JoinSplit(text: string, sep: char)
    ensures Join(Split(text, sep), sep) == text
    ensures forall i :: 0 <= i < |Split(text, sep)| ==> sep !in Split(text, sep)[i]
  {
    if text != "" {
      var rest := Split(text[1..], sep);
      JoinSplit(text[1..], sep);
      if text[0] == sep {
        assert Join([""] + rest, sep) == "" + [sep] + Join(rest, sep);
      } else {
        var parts := [[text[0]] + rest[0]] + rest[1..];
        assert parts[1..] == rest[1..];
        assert Join(parts, sep) == [text[0]] + Join(rest, sep);
      }
    }
  }

  // ----- numerals -----

  predicate IsDecimalDigit(c: char) {
    '0' <= c <= '9'
  }

  predicate IsHexDigit(c: char) {
    IsDecimalDigit(c) || 'a' <= c <= 'f'
  }

  function HexDigit(c: char): (d: nat)
    requires IsHexDigit(c)
    ensures d < 16
  {
    if IsDecimalDigit(c) then c as int - '0' as int else c as int - 'a' as int + 10
  }

  predicate IsHexText(text: string) {
    forall i :: 0 <= i < |text| ==> IsHexDigit(text[i])
  }

  predicate IsDecimalText(text: string) {
    forall i :: 0 <= i < |text| ==> IsDecimalDigit(text[i])
  }

  /** The value of a text in a base, by the values of its digits. */
  function Numeral(text: string, base: nat): nat
    requires IsHexText(text)
  {
    if text == "" then 0
    else Numeral(text[..|text| - 1], base) * base + HexDigit(text[|text| - 1])
  }

  /** /^\d{1,3}$/ and at most 255 */
  predicate IsOctet(text: string) {
    1 <= |text| <= 3 && IsDecimalText(text) && Numeral(text, 10) <= 255
  }

  /** /^[0-9a-f]{1,4}$/ */
  predicate IsGroup(text: string) {
    1 <= |text| <= 4 && IsHexText(text)
  }

  lemma {:induction false} GroupValue(text: string)
    requires IsHexText(text) && |text| <= 4
    ensures Numeral(text, 16) < [1, 16, 256, 4096, 65536][|text|]
  {
    if text != "" {
      GroupValue(text[..|text| - 1]);
    }
  }

  predicate AreGroups(parts: seq<string>) {
    forall i :: 0 <= i < |parts| ==> IsGroup(parts[i])
  }

  type Octets = o: seq<int> | |o| == 4 && forall x :: x in o ==> 0 <= x <= 255
    witness [0, 0, 0, 0]

  type Groups = g: seq<int> | |g| == 8 && forall x :: x in g ==> 0 <= x < 0x1_0000
    witness [0, 0, 0, 0, 0, 0, 0, 0]

  // ----- IPv4 -----

  function ParseIPv4(text: string): Option<Octets> {
    var parts := Split(text, '.');
    if |parts| == 4 && IsOctet(parts[0]) && IsOctet(parts[1]) && IsOctet(parts[2]) && IsOctet(parts[3]) then
      Some([Numeral(parts[0], 10), Numeral(parts[1], 10), Numeral(parts[2], 10), Numeral(parts[3], 10)])
    else None
  }

  /** A text of four octets with dots between them; leading zeros are allowed. */
  ghost predicate IsDotted(text: string, octets: Octets) {
    exists parts: seq<string> :: IsDottedBy(text, octets, parts)
  }

  predicate IsDottedBy(text: string, octets: Octets, parts: seq<string>) {
    |parts| == 4 && text == Join(parts, '.')
    && forall i :: 0 <= i < 4 ==> IsOctet(parts[i]) && Numeral(parts[i], 10) == octets[i]
  }

  /** parseIPv4 accepts exactly the dotted texts and returns their octets. */
  lemma ParseIPv4Exact(text: string, octets: Octets)
    ensures ParseIPv4(text) == Some(octets) <==> IsDotted(text, octets)
  {
    if ParseIPv4(text) == Some(octets) {
      JoinSplit(text, '.');
      assert IsDottedBy(text, octets, Split(text, '.'));
    }
    if IsDotted(text, octets) {
      var parts: seq<string> :| IsDottedBy(text, octets, parts);
      SplitJoin(parts, '.');
      assert ParseIPv4(text).value == octets;
    }
  }

  // ----- IPv6 -----

  function LowerChar(c: char): char {
    if 'A' <= c <= 'Z' then c - 'A' + 'a' else c
  }

  function Lower(text: string): (r: string)
    ensures |r| == |text|
  {
    if text == "" then "" else [LowerChar(text[0])] + Lower(text[1..])
  }

  /** replace(/^\[|\]$/g, '') */
  function StripBrackets(text: string): string {
    var t := if text != "" && text[0] == '[' then text[1..] else text;
    if t != "" && t[|t| - 1] == ']' then t[..|t| - 1] else t
  }

  /** The text in front of the first percent sign. */
  function CutZone(text: string): string {
    if text == "" || text[0] == '%' then "" else [text[0]] + CutZone(text[1..])
  }

  /** The part of an address text that denotes the address: lower case, no brackets, no zone. */
  function Core(address: string): string {
    CutZone(StripBrackets(Lower(address)))
  }

  /** split('::') */
  function SplitDouble(text: string): (parts: seq<string>)
    ensures |parts| > 0
  {
    if |text| < 2 then [text]
    else if text[0] == ':' && text[1] == ':' then [""] + SplitDouble(text[2..])
    else
      var rest := SplitDouble(text[1..]);
      [[text[0]] + rest[0]] + rest[1..]
  }

  function Values(parts: seq<string>): (g: seq<int>)
    requires AreGroups(parts)
    ensures |g| == |parts| && forall i :: 0 <= i < |g| ==> g[i] == Numeral(parts[i], 16)
  {
    seq(|parts|, i requires 0 <= i < |parts| => Numeral(parts[i], 16))
  }

  function ParseGroups(part: string): Option<seq<int>> {
    if part == "" then Some([])
    else
      var parts := Split(part, ':');
      if AreGroups(parts) then Some(Values(parts)) else None
  }

  function Zeros(n: nat): seq<int> {
    seq(n, _ => 0)
  }

  function ParseHexGroups(text: string): Option<seq<int>> {
    var halves := SplitDouble(text);
    if |halves| > 2 then None
    else
      var head := ParseGroups(halves[0]);
      var rest := if |halves| == 2 then ParseGroups(halves[1]) else Some([]);
      if head.None? || rest.None? then None
      else if |halves| == 1 then (if |head.value| == 8 then head else None)
      else if 8 - |head.value| - |rest.value| >= 1 then
        Some(head.value + Zeros(8 - |head.value| - |rest.value|) + rest.value)
      else None
  }

  /** toString(16) */
  function Hex(n: nat): string {
    if n < 16 then [HexChar(n)] else Hex(n / 16) + [HexChar(n % 16)]
  }

  function HexChar(d: nat): (c: char)
    requires d < 16
    ensures IsHexDigit(c) && HexDigit(c) == d
  {
    ['0', '1', '2', '3', '4', '5', '6', '7', '8', '9', 'a', 'b', 'c', 'd', 'e', 'f'][d]
  }

  /** Where the last part after a colon starts. */
  function TailStart(text: string): (n: nat)
    ensures n <= |text|
    ensures n > 0 ==> text[n - 1] == ':'
    ensures forall i :: n <= i < |text| ==> text[i] != ':'
  {
    if text == "" then 0
    else if text[|text| - 1] == ':' then |text|
    else TailStart(text[..|text| - 1])
  }

  /** The last two groups an IPv4 tail stands for, as texts. */
  function PairText(o: Octets): string {
    Hex(256 * o[0] + o[1]) + ":" + Hex(256 * o[2] + o[3])
  }

  function ParseIPv6(address: string): Option<seq<int>> {
    var text := Core(address);
    var n := TailStart(text);
    if '.' in text[n..] then
      match ParseIPv4(text[n..])
      case None => None
      case Some(o) => ParseHexGroups(text[..n] + PairText(o))
    else ParseHexGroups(text)
  }

  // ----- the textual forms -----

  /** All eight groups. */
  predicate IsFull(text: string, g: seq<int>, parts: seq<string>) {
    |parts| == 8 && AreGroups(parts) && text == Join(parts, ':') && g == Values(parts)
  }

  /** The groups in front of and behind a double colon, which stands for at least one zero group. */
  predicate IsCompressed(text: string, g: seq<int>, head: seq<string>, rest: seq<string>) {
    |head| + |rest| <= 7 && AreGroups(head) && AreGroups(rest)
    && text == Join(head, ':') + "::" + Join(rest, ':')
    && g == Values(head) + Zeros(8 - |head| - |rest|) + Values(rest)
  }

  ghost predicate IsHexForm(text: string, g: seq<int>) {
    (exists parts: seq<string> :: IsFull(text, g, parts))
    || (exists head: seq<string>, rest: seq<string> :: IsCompressed(text, g, head, rest))
  }

  /** A text whose last two groups are written as four octets with dots between them. */
  ghost predicate IsMixedForm(text: string, g: seq<int>) {
    exists n: nat, o: Octets :: IsMixedAt(text, g, n, o)
  }

  ghost predicate IsMixedAt(text: string, g: seq<int>, n: nat, o: Octets) {
    n <= |text| && (n > 0 ==> text[n - 1] == ':')
    && IsDotted(text[n..], o) && IsHexForm(text[..n] + PairText(o), g)
  }

  // ----- parsing inverts the textual forms -----

  predicate NoDouble(text: string) {
    |text| < 2 || (!(text[0] == ':' && text[1] == ':') && NoDouble(text[1..]))
  }

  predicate NoColon(text: string) {
    forall i :: 0 <= i < |text| ==> text[i] != ':'
  }

  lemma {:induction false} NoDoubleJoin(part: string, tail: string)
    requires NoColon(part) && NoDouble(tail) && (tail != "" ==> tail[0] != ':')
    ensures NoDouble(part + ":" + tail) || part == ""
    ensures part == "" ==> tail == "" || NoDouble(":" + tail)
  {
    if part == "" {
      if tail != "" {
        assert (":" + tail)[1..] == tail;
      }
    } else {
      var text := part + ":" + tail;
      assert text[1..] == part[1..] + ":" + tail;
      NoDoubleJoin(part[1..], tail);
      if part[1..] == "" {
        assert text[1..] == ":" + tail;
        assert tail == "" ==> |text[1..]| == 1;
      }
    }
  }

  lemma {:induction false} SplitDoubleSingle(text: string)
    requires NoDouble(text)
    ensures SplitDouble(text) == [text]
  {
    if |text| >= 2 {
      SplitDoubleSingle(text[1..]);
      assert [text[0]] + text[1..] == text;
    }
  }

  lemma {:induction false} SplitDoublePrefix(head: string, rest: string)
    requires NoDouble(head) && (head != "" ==> head[|head| - 1] != ':')
    ensures SplitDouble(head + "::" + rest) == [head] + SplitDouble(rest)
  {
    var text := head + "::" + rest;
    if head == "" {
      assert text[2..] == rest;
    } else {
      SplitDoublePrefix(head[1..], rest);
      assert text[1..] == head[1..] + "::" + rest;
      assert [head[0]] + head[1..] == head;
    }
  }

  lemma {:induction false} JoinSplitDouble(text: string)
    ensures |SplitDouble(text)| == 1 ==> SplitDouble(text)[0] == text
    ensures |SplitDouble(text)| == 2 ==> text == SplitDouble(text)[0] + "::" + SplitDouble(text)[1]
  {
    if |text| >= 2 {
      if text[0] == ':' && text[1] == ':' {
        JoinSplitDouble(text[2..]);
        assert text == "::" + text[2..];
        assert SplitDouble(text) == [""] + SplitDouble(text[2..]);
      } else {
        var rest := SplitDouble(text[1..]);
        JoinSplitDouble(text[1..]);
        assert SplitDouble(text) == [[text[0]] + rest[0]] + rest[1..];
        PutBack(text, rest);
      }
    }
  }

  lemma PutBack(text: string, rest: seq<string>)
    requires text != "" && rest != []
    ensures |rest| == 1 && rest[0] == text[1..] ==> [text[0]] + rest[0] == text
    ensures |rest| == 2 && text[1..] == rest[0] + "::" + rest[1] ==> text == ([text[0]] + rest[0]) + "::" + rest[1]
  {
    assert text == [text[0]] + text[1..];
    if |rest| == 2 {
      assert [text[0]] + (rest[0] + "::" + rest[1]) == ([text[0]] + rest[0]) + "::" + rest[1];
    }
  }

  /** Joined groups have no double colon and no colon at their ends. */
  lemma {:induction false} JoinedGroups(parts: seq<string>)
    requires AreGroups(parts)
    ensures var text := Join(parts, ':');
      && NoDouble(text) && (text == "" <==> parts == [])
      && (text != "" ==> text[0] != ':' && text[|text| - 1] != ':')
      && (forall i :: 0 <= i < |text| ==> text[i] == ':' || IsHexDigit(text[i]))
    ensures forall i :: 0 <= i < |parts| ==> ':' !in parts[i]
  {
    forall i | 0 <= i < |parts|
      ensures ':' !in parts[i] && NoColon(parts[i])
    {
      assert IsGroup(parts[i]);
    }
    if |parts| == 1 {
      assert IsGroup(parts[0]);
      NoColonNoDouble(parts[0]);
    } else if |parts| > 1 {
      JoinedGroups(parts[1..]);
      assert IsGroup(parts[0]);
      NoDoubleJoin(parts[0], Join(parts[1..], ':'));
    }
  }

  lemma {:induction false} NoColonNoDouble(text: string)
    requires NoColon(text)
    ensures NoDouble(text)
  {
    if text != "" {
      NoColonNoDouble(text[1..]);
    }
  }

  lemma ParseJoinedGroups(parts: seq<string>)
    requires AreGroups(parts)
    ensures ParseGroups(Join(parts, ':')) == Some(Values(parts))
  {
    JoinedGroups(parts);
    if parts != [] {
      SplitJoin(parts, ':');
    }
  }

  /** A parsed half is a list of groups joined again. */
  lemma PartsOfGroups(part: string) returns (parts: seq<string>)
    requires ParseGroups(part).Some?
    ensures AreGroups(parts) && part == Join(parts, ':') && ParseGroups(part) == Some(Values(parts))
  {
    if part == "" {
      parts := [];
    } else {
      parts := Split(part, ':');
      JoinSplit(part, ':');
    }
  }

  /** Texts without dots: parsing succeeds exactly on the full and the compressed form. */
  lemma ParseHexExact(text: string, g: seq<int>)
    ensures ParseHexGroups(text) == Some(g) <==> IsHexForm(text, g)
  {
    if ParseHexGroups(text) == Some(g) {
      var halves := SplitDouble(text);
      JoinSplitDouble(text);
      var head := PartsOfGroups(halves[0]);
      if |halves| == 1 {
        assert IsFull(text, g, head);
      } else {
        var rest := PartsOfGroups(halves[1]);
        assert IsCompressed(text, g, head, rest);
      }
    }
    if IsHexForm(text, g) {
      HexFormParses(text, g);
    }
  }

  lemma HexFormParses(text: string, g: seq<int>)
    requires IsHexForm(text, g)
    ensures ParseHexGroups(text) == Some(g)
  {
    if parts: seq<string> :| IsFull(text, g, parts) {
      FullParses(parts);
    } else {
      var head: seq<string>, rest: seq<string> :| IsCompressed(text, g, head, rest);
      CompressedParses(head, rest);
    }
  }

  lemma FullParses(parts: seq<string>)
    requires |parts| == 8 && AreGroups(parts)
    ensures ParseHexGroups(Join(parts, ':')) == Some(Values(parts))
  {
    hide Join, Values, AreGroups, ParseGroups, SplitDouble;
    JoinedGroups(parts);
    SplitDoubleSingle(Join(parts, ':'));
    ParseJoinedGroups(parts);
  }

  lemma CompressedParses(head: seq<string>, rest: seq<string>)
    requires |head| + |rest| <= 7 && AreGroups(head) && AreGroups(rest)
    ensures ParseHexGroups(Join(head, ':') + "::" + Join(rest, ':'))
            == Some(Values(head) + Zeros(8 - |head| - |rest|) + Values(rest))
  {
    hide Join, Values, AreGroups, ParseGroups, SplitDouble, NoDouble;
    JoinedGroups(head);
    JoinedGroups(rest);
    SplitDoublePrefix(Join(head, ':'), Join(rest, ':'));
    SplitDoubleSingle(Join(rest, ':'));
    ParseJoinedGroups(head);
    ParseJoinedGroups(rest);
  }

  lemma ValuesRange(parts: seq<string>)
    requires AreGroups(parts)
    ensures forall i :: 0 <= i < |parts| ==> 0 <= Values(parts)[i] < 0x1_0000
  {
    forall i | 0 <= i < |parts|
      ensures 0 <= Values(parts)[i] < 0x1_0000
    {
      GroupValue(parts[i]);
    }
  }

  /** Success yields eight groups of sixteen bits. */
  lemma ParseHexRange(text: string)
    requires ParseHexGroups(text).Some?
    ensures var g := ParseHexGroups(text).value;
      |g| == 8 && forall x :: x in g ==> 0 <= x < 0x1_0000
  {
    hide ParseHexGroups, IsHexForm;
    var g := ParseHexGroups(text).value;
    ParseHexExact(text, g);
    HexFormRange(text, g);
  }

  lemma HexFormRange(text: string, g: seq<int>)
    requires IsHexForm(text, g)
    ensures |g| == 8 && forall i :: 0 <= i < |g| ==> 0 <= g[i] < 0x1_0000
  {
    hide Join, IsGroup;
    if parts: seq<string> :| IsFull(text, g, parts) {
      ValuesRange(parts);
    } else {
      var head: seq<string>, rest: seq<string> :| IsCompressed(text, g, head, rest);
      ValuesRange(head);
      ValuesRange(rest);
    }
  }

  lemma ParseIPv6Range(address: string)
    requires ParseIPv6(address).Some?
    ensures var g := ParseIPv6(address).value;
      |g| == 8 && forall x :: x in g ==> 0 <= x < 0x1_0000
  {
    var text := Core(address);
    var n := TailStart(text);
    if '.' in text[n..] {
      ParseHexRange(text[..n] + PairText(ParseIPv4(text[n..]).value));
    } else {
      ParseHexRange(text);
    }
  }

  lemma {:induction false} HexRange(n: nat)
    requires n < 0x1_0000
    ensures IsGroup(Hex(n)) && Numeral(Hex(n), 16) == n
  {
    HexDigits(n, 4);
  }

  lemma {:induction false} HexDigits(n: nat, k: nat)
    requires 1 <= k <= 4 && n < [1, 16, 256, 4096, 65536][k]
    ensures 1 <= |Hex(n)| <= k && IsHexText(Hex(n)) && Numeral(Hex(n), 16) == n
  {
    if n < 16 {
      assert Hex(n)[..0] == "";
    } else {
      HexDigits(n / 16, k - 1);
      assert Hex(n)[..|Hex(n)| - 1] == Hex(n / 16);
    }
  }

  /** A full or compressed form has no dot. */
  lemma HexFormHasNoDot(text: string, g: seq<int>)
    requires IsHexForm(text, g)
    ensures '.' !in text
  {
    if parts: seq<string> :| IsFull(text, g, parts) {
      JoinedGroups(parts);
    } else {
      var head: seq<string>, rest: seq<string> :| IsCompressed(text, g, head, rest);
      JoinedGroups(head);
      JoinedGroups(rest);
    }
  }

  lemma DottedHasNoColon(text: string, o: Octets)
    requires IsDotted(text, o)
    ensures ':' !in text && '.' in text
  {
    var parts: seq<string> :| IsDottedBy(text, o, parts);
    var p0, p1, p2, p3 := parts[0], parts[1], parts[2], parts[3];
    assert IsOctet(p0) && IsOctet(p1) && IsOctet(p2) && IsOctet(p3);
    assert Join(parts[1..][1..], '.') == p2 + "." + p3;
    assert Join(parts[1..], '.') == p1 + "." + Join(parts[1..][1..], '.');
    assert text == p0 + "." + Join(parts[1..], '.');
    assert text[|p0|] == '.';
  }

  lemma {:induction false} TailStartIs(text: string, n: nat)
    requires n <= |text| && (n > 0 ==> text[n - 1] == ':') && ':' !in text[n..]
    ensures TailStart(text) == n
  {
    if n < |text| {
      assert text[|text| - 1] == text[n..][|text| - 1 - n];
      assert text[..|text| - 1][n..] == text[n..][..|text| - 1 - n];
      TailStartIs(text[..|text| - 1], n);
    }
  }

  /**
   * parseIPv6 accepts exactly the textual forms of section 2.2 of RFC 4291, after lower-casing
   * and without brackets or zone, and returns the groups they denote.
   */
  lemma ParseIPv6Exact(address: string, g: seq<int>)
    ensures ParseIPv6(address) == Some(g) <==> IsHexForm(Core(address), g) || IsMixedForm(Core(address), g)
  {
    var text := Core(address);
    var n := TailStart(text);
    if IsHexForm(text, g) {
      HexFormHasNoDot(text, g);
    }
    ParseHexExact(text, g);
    if IsMixedForm(text, g) {
      var k: nat, o: Octets :| IsMixedAt(text, g, k, o);
      DottedHasNoColon(text[k..], o);
      TailStartIs(text, k);
      ParseIPv4Exact(text[k..], o);
      ParseHexExact(text[..k] + PairText(o), g);
    }
    if '.' in text[n..] && ParseIPv6(address) == Some(g) {
      var o := ParseIPv4(text[n..]).value;
      ParseIPv4Exact(text[n..], o);
      ParseHexExact(text[..n] + PairText(o), g);
      assert IsMixedAt(text, g, n, o);
    }
  }

  lemma {:induction false} JoinLastTwo(parts: seq<string>, a: string, b: string)
    ensures Join(parts + [a, b], ':') == (if parts == [] then "" else Join(parts, ':') + ":") + (a + ":" + b)
  {
    if |parts| == 0 {
      assert [a, b][1..] == [b];
    } else {
      assert (parts + [a, b])[1..] == parts[1..] + [a, b];
      JoinLastTwo(parts[1..], a, b);
      if |parts| == 1 {
        assert parts[1..] == [];
      }
    }
  }

  /** The groups of two numbers printed in hexadecimal are the numbers. */
  lemma PairGroups(o: Octets)
    ensures var a, b := Hex(256 * o[0] + o[1]), Hex(256 * o[2] + o[3]);
      IsGroup(a) && IsGroup(b) && Values([a, b]) == [256 * o[0] + o[1], 256 * o[2] + o[3]]
  {
    assert o[0] in o && o[1] in o && o[2] in o && o[3] in o;
    HexRange(256 * o[0] + o[1]);
    HexRange(256 * o[2] + o[3]);
  }

  /** Six groups and a dotted tail. */
  lemma FullMixed(head: seq<string>, dotted: string, o: Octets)
    requires |head| == 6 && AreGroups(head) && IsDotted(dotted, o)
    ensures IsMixedForm(Join(head, ':') + ":" + dotted, Values(head) + [256 * o[0] + o[1], 256 * o[2] + o[3]])
  {
    var a, b := Hex(256 * o[0] + o[1]), Hex(256 * o[2] + o[3]);
    var front := Join(head, ':') + ":";
    var text := front + dotted;
    var g := Values(head) + [256 * o[0] + o[1], 256 * o[2] + o[3]];
    PairGroups(o);
    JoinLastTwo(head, a, b);
    ValuesAppend(head, a, b);
    assert text[..|front|] == front && text[|front|..] == dotted;
    assert IsFull(front + PairText(o), g, head + [a, b]);
    assert IsMixedAt(text, g, |front|, o);
  }

  /** Two more groups, in hexadecimal. */
  lemma PairTail(rest: seq<string>, o: Octets) returns (longer: seq<string>)
    requires AreGroups(rest)
    ensures |longer| == |rest| + 2 && AreGroups(longer)
    ensures Join(longer, ':') == (if rest == [] then "" else Join(rest, ':') + ":") + PairText(o)
    ensures Values(longer) == Values(rest) + [256 * o[0] + o[1], 256 * o[2] + o[3]]
  {
    var a, b := Hex(256 * o[0] + o[1]), Hex(256 * o[2] + o[3]);
    PairGroups(o);
    hide Join, IsGroup, Hex;
    longer := rest + [a, b];
    JoinLastTwo(rest, a, b);
    ValuesAppend(rest, a, b);
  }

  lemma CompressedPair(head: seq<string>, rest: seq<string>, o: Octets)
    requires |head| + |rest| <= 5 && AreGroups(head) && AreGroups(rest)
    ensures IsHexForm(Join(head, ':') + "::" + ((if rest == [] then "" else Join(rest, ':') + ":") + PairText(o)),
                      Values(head) + Zeros(6 - |head| - |rest|) + Values(rest)
                      + [256 * o[0] + o[1], 256 * o[2] + o[3]])
  {
    hide Join, IsHexForm, AreGroups, Zeros, PairText;
    var longer := PairTail(rest, o);
    CompressedIsHexForm(head, longer);
    Append(Values(head) + Zeros(6 - |head| - |rest|), Values(rest), [256 * o[0] + o[1], 256 * o[2] + o[3]]);
  }

  lemma CompressedIsHexForm(head: seq<string>, rest: seq<string>)
    requires |head| + |rest| <= 7 && AreGroups(head) && AreGroups(rest)
    ensures IsHexForm(Join(head, ':') + "::" + Join(rest, ':'),
                      Values(head) + Zeros(8 - |head| - |rest|) + Values(rest))
  {
    hide Join, AreGroups, Values, Zeros;
    assert IsCompressed(Join(head, ':') + "::" + Join(rest, ':'),
                        Values(head) + Zeros(8 - |head| - |rest|) + Values(rest), head, rest);
  }

  /** Groups around a double colon and a dotted tail. */
  lemma CompressedMixed(head: seq<string>, rest: seq<string>, dotted: string, o: Octets)
    requires |head| + |rest| <= 5 && AreGroups(head) && AreGroups(rest) && IsDotted(dotted, o)
    ensures IsMixedForm(Join(head, ':') + "::" + ((if rest == [] then "" else Join(rest, ':') + ":") + dotted),
                        Values(head) + Zeros(6 - |head| - |rest|) + Values(rest)
                        + [256 * o[0] + o[1], 256 * o[2] + o[3]])
  {
    hide Join, IsDotted, AreGroups, Values, PairText, IsHexForm;
    var middle := if rest == [] then "" else Join(rest, ':') + ":";
    var front := Join(head, ':') + "::" + middle;
    CompressedPair(head, rest, o);
    Regroup(Join(head, ':'), middle, dotted);
    Regroup(Join(head, ':'), middle, PairText(o));
    assert IsMixedAt(front + dotted,
                     Values(head) + Zeros(6 - |head| - |rest|) + Values(rest) + [256 * o[0] + o[1], 256 * o[2] + o[3]],
                     |front|, o);
  }

  lemma Regroup(head: string, middle: string, tail: string)
    ensures var front := head + "::" + middle;
      var text := head + "::" + (middle + tail);
      text == front + tail && text[..|front|] == front && text[|front|..] == tail
  {
  }

  lemma Append(a: seq<int>, b: seq<int>, c: seq<int>)
    ensures a + (b + c) == a + b + c
  {
  }

  lemma ValuesAppend(parts: seq<string>, a: string, b: string)
    requires AreGroups(parts) && IsGroup(a) && IsGroup(b)
    ensures AreGroups(parts + [a, b]) && Values(parts + [a, b]) == Values(parts) + Values([a, b])
  {
  }

  // ----- classification -----

  predicate IsNonPublicIPv4(o: Octets) {
    var a, b, c := o[0], o[1], o[2];
    || a == 0 || a == 10
    || (a == 100 && 64 <= b <= 127)
    || a == 127
    || (a == 169 && b == 254)
    || (a == 172 && 16 <= b <= 31)
    || (a == 192 && b == 168)
    || (a == 192 && b == 0 && c == 0)
    || (a == 198 && (b == 18 || b == 19))
    || a >= 224
  }

  predicate IsDocumentationIPv4(o: Octets) {
    var a, b, c := o[0], o[1], o[2];
    || (a == 192 && b == 0 && c == 2)
    || (a == 198 && b == 51 && c == 100)
    || (a == 203 && b == 0 && c == 113)
  }

  function HighByte(group: int): int { group / 256 }

  function LowByte(group: int): int { group % 256 }

  function EmbeddedIPv4(g: Groups, high: nat, low: nat): Octets
    requires high < 8 && low < 8
  {
    assert g[high] in g && g[low] in g;
    [HighByte(g[high]), LowByte(g[high]), HighByte(g[low]), LowByte(g[low])]
  }

  function EmbeddedIPv4Of(g: Groups): Option<Octets> {
    if g[0] == 0 && g[1] == 0 && g[2] == 0 && g[3] == 0 && g[4] == 0 && (g[5] == 0 || g[5] == 0xFFFF) then
      Some(EmbeddedIPv4(g, 6, 7))
    else if g[0] == 0x64 && g[1] == 0xFF9B && g[2] == 0 && g[3] == 0 && g[4] == 0 && g[5] == 0 then
      Some(EmbeddedIPv4(g, 6, 7))
    else if g[0] == 0x2002 then Some(EmbeddedIPv4(g, 1, 2))
    else None
  }

  /** A group with its low bits cleared; `unit` is two to the number of bits. */
  function Cleared(group: int, unit: int): int
    requires unit > 0
  {
    group - group % unit
  }

  predicate IsNonPublicIPv6(g: Groups) {
    || Cleared(g[0], 0x40) == 0xFE80
    || Cleared(g[0], 0x40) == 0xFEC0
    || Cleared(g[0], 0x200) == 0xFC00
    || Cleared(g[0], 0x100) == 0xFF00
  }

  predicate IsDocumentationIPv6(g: Groups) {
    g[0] == 0x2001 && g[1] == 0x0DB8
  }

  datatype Form = V4(octets: Octets) | V6(groups: Groups)

  /** `family` is what the host says about the text without its zone: 4, 6, or 0 for no address. */
  function AddressForm(address: string, family: int): Option<Form> {
    if family == 4 then
      match ParseIPv4(address)
      case None => None
      case Some(o) => Some(V4(o))
    else if family == 6 && ParseIPv6(address).Some? then
      ParseIPv6Range(address);
      var g: Groups := ParseIPv6(address).value;
      match EmbeddedIPv4Of(g)
      case Some(o) => Some(V4(o))
      case None => Some(V6(g))
    else None
  }

  predicate IsBlockedForm(form: Form) {
    match form
    case V4(o) => IsNonPublicIPv4(o) || IsDocumentationIPv4(o)
    case V6(g) => IsNonPublicIPv6(g) || IsDocumentationIPv6(g)
  }

  predicate IsBlockedAddress(address: string, family: int) {
    var form := AddressForm(address, family);
    form.None? || IsBlockedForm(form.value)
  }

  // ----- what the verdict depends on -----

  /** The address a value denotes: the IPv4 address it embeds, or itself. */
  function FormOf(g: Groups): Form {
    match EmbeddedIPv4Of(g)
    case Some(o) => V4(o)
    case None => V6(g)
  }

  /**
   * A text of an IPv6 value is blocked when the host takes it for no address, as it does a bracketed
   * one; any two texts the host takes for addresses get the same verdict, which is that of the value.
   */
  lemma VerdictOfValue(address: string, g: Groups, family: int)
    requires IsHexForm(Core(address), g) || IsMixedForm(Core(address), g)
    requires family == 0 || family == 6
    ensures IsBlockedAddress(address, family) == (family == 0 || IsBlockedForm(FormOf(g)))
  {
    ParseIPv6Exact(address, g);
  }

  /** A text that is no form of an IPv6 address is blocked. */
  lemma UnparsedIsBlocked(address: string)
    requires forall g: seq<int> :: !IsHexForm(Core(address), g) && !IsMixedForm(Core(address), g)
    ensures IsBlockedAddress(address, 6)
  {
    if ParseIPv6(address).Some? {
      ParseIPv6Exact(address, ParseIPv6(address).value);
    }
  }

  /**
   * The IPv6 values that carry an IPv4 address: IPv4-compatible and IPv4-mapped (section 2.5.5
   * of RFC 4291), the NAT64 prefix (section 2.1 of RFC 6052) and 6to4 (section 2 of RFC 3056).
   */
  predicate Carries(g: Groups, o: Octets) {
    var high, low := 256 * o[0] + o[1], 256 * o[2] + o[3];
    || g == [0, 0, 0, 0, 0, 0, high, low]
    || g == [0, 0, 0, 0, 0, 0xFFFF, high, low]
    || g == [0x64, 0xFF9B, 0, 0, 0, 0, high, low]
    || (g[0] == 0x2002 && g[1] == high && g[2] == low)
  }

  lemma BytesOfGroup(a: int, b: int)
    requires 0 <= a <= 255 && 0 <= b <= 255
    ensures HighByte(256 * a + b) == a && LowByte(256 * a + b) == b
  {
  }

  /** An embedding is recognised, and only what carries an IPv4 address is taken for one. */
  lemma EmbeddingExact(g: Groups, o: Octets)
    ensures EmbeddedIPv4Of(g) == Some(o) <==> Carries(g, o)
  {
    hide EmbeddedIPv4Of, Carries;
    if Carries(g, o) {
      CarriedIsFound(g, o);
    }
    if EmbeddedIPv4Of(g) == Some(o) {
      FoundIsCarried(g, o);
    }
  }

  lemma CarriedIsFound(g: Groups, o: Octets)
    requires Carries(g, o)
    ensures EmbeddedIPv4Of(g) == Some(o)
  {
    assert o[0] in o && o[1] in o && o[2] in o && o[3] in o;
    hide HighByte, LowByte;
    BytesOfGroup(o[0], o[1]);
    BytesOfGroup(o[2], o[3]);
    assert EmbeddedIPv4Of(g).value == o;
  }

  lemma FoundIsCarried(g: Groups, o: Octets)
    requires EmbeddedIPv4Of(g) == Some(o)
    ensures Carries(g, o)
  {
    hide HighByte, LowByte;
    GroupOfBytes(g[1]);
    GroupOfBytes(g[2]);
    GroupOfBytes(g[6]);
    GroupOfBytes(g[7]);
    if g[0] != 0x2002 {
      assert g == [g[0], g[1], 0, 0, 0, g[5], 256 * o[0] + o[1], 256 * o[2] + o[3]];
    }
  }

  lemma GroupOfBytes(x: int)
    ensures 256 * HighByte(x) + LowByte(x) == x
  {
  }

  /**
   * The verdict on an IPv4 address and on a text of an address that embeds it agree, if the host takes
   * both texts for addresses; one it does not take is blocked.
   */
  lemma EmbeddingsAgree(dotted: string, o: Octets, family4: int, address: string, g: Groups, family6: int)
    requires IsDotted(dotted, o) && Carries(g, o)
    requires IsHexForm(Core(address), g) || IsMixedForm(Core(address), g)
    requires (family4 == 0 || family4 == 4) && (family6 == 0 || family6 == 6)
    ensures family4 == 4 && family6 == 6 ==> IsBlockedAddress(dotted, family4) == IsBlockedAddress(address, family6)
    ensures IsBlockedAddress(dotted, family4) == (family4 == 0 || IsBlockedForm(V4(o)))
    ensures IsBlockedAddress(address, family6) == (family6 == 0 || IsBlockedForm(V4(o)))
  {
    ParseIPv4Exact(dotted, o);
    VerdictOfValue(address, g, family6);
    EmbeddingExact(g, o);
  }

  predicate IsPlain(text: string) {
    forall i :: 0 <= i < |text| ==> text[i] == ':' || text[i] == '.' || IsHexDigit(text[i])
  }

  lemma {:induction false} CutZoneNone(text: string)
    requires '%' !in text
    ensures CutZone(text) == text
  {
    if text != "" {
      CutZoneNone(text[1..]);
    }
  }

  lemma {:induction false} LowerPlain(text: string)
    requires IsPlain(text)
    ensures Lower(text) == text
  {
    if text != "" {
      LowerPlain(text[1..]);
    }
  }

  lemma CorePlain(text: string)
    requires IsPlain(text)
    ensures Core(text) == text
  {
    LowerPlain(text);
    CutZoneNone(text);
  }

  lemma DottedIsPlain(text: string, o: Octets)
    requires IsDotted(text, o)
    ensures IsPlain(text)
  {
    var parts: seq<string> :| IsDottedBy(text, o, parts);
    forall i | 0 <= i < |parts|
      ensures IsPlain(parts[i])
    {
      assert IsOctet(parts[i]);
    }
    JoinPlain(parts);
  }

  lemma {:induction false} JoinPlain(parts: seq<string>)
    requires forall i :: 0 <= i < |parts| ==> IsPlain(parts[i])
    ensures IsPlain(Join(parts, '.'))
  {
    if |parts| > 1 {
      JoinPlain(parts[1..]);
      assert IsPlain(parts[0]);
    }
  }

  /** The usual spelling of an IPv4-mapped address gets the verdict of the IPv4 address. */
  lemma MappedText(dotted: string, o: Octets)
    requires IsDotted(dotted, o)
    ensures IsBlockedAddress("::ffff:" + dotted, 6) == IsBlockedAddress(dotted, 4)
  {
    hide IsDotted, Carries, IsMixedForm;
    var address := "::ffff:" + dotted;
    DottedIsPlain(dotted, o);
    assert IsPlain(address);
    CorePlain(address);
    var g := Mapped(o);
    MappedForm(dotted, o);
    MappedCarries(o);
    EmbeddingsAgree(dotted, o, 4, address, g, 6);
  }

  function Mapped(o: Octets): Groups {
    assert o[0] in o && o[1] in o && o[2] in o && o[3] in o;
    [0, 0, 0, 0, 0, 0xFFFF, 256 * o[0] + o[1], 256 * o[2] + o[3]]
  }

  lemma MappedCarries(o: Octets)
    ensures Carries(Mapped(o), o)
  {
  }

  lemma MappedForm(dotted: string, o: Octets)
    requires IsDotted(dotted, o)
    ensures IsMixedForm("::ffff:" + dotted, Mapped(o))
  {
    hide IsDotted, IsMixedForm, IsGroup;
    MappedGroup();
    CompressedMixed([], ["ffff"], dotted, o);
    assert "" + "::" + (("ffff" + ":") + dotted) == "::ffff:" + dotted;
    assert Values([]) + Zeros(5) + Values(["ffff"]) + [256 * o[0] + o[1], 256 * o[2] + o[3]] == Mapped(o);
  }

  lemma MappedGroup()
    ensures IsGroup("ffff") && Numeral("ffff", 16) == 0xFFFF
  {
    assert "ffff"[..3] == "fff" && "fff"[..2] == "ff" && "ff"[..1] == "f" && "f"[..0] == "";
  }

  // ----- the blocked ranges as prefixes -----

  function Number(o: Octets): int {
    0x100_0000 * o[0] + 0x1_0000 * o[1] + 0x100 * o[2] + o[3]
  }

  /** The number lies in the block of `size` addresses that starts at `base`. */
  predicate InBlock(n: int, base: int, size: int) {
    base <= n < base + size
  }

  /** The blocked IPv4 addresses are thirteen whole prefixes. */
  lemma BlockedPrefixes(o: Octets)
    ensures IsBlockedForm(V4(o)) <==>
            var n := Number(o);
            || InBlock(n, 0x0000_0000, 0x100_0000) || InBlock(n, 0x0A00_0000, 0x100_0000)
            || InBlock(n, 0x6440_0000, 0x40_0000) || InBlock(n, 0x7F00_0000, 0x100_0000)
            || InBlock(n, 0xA9FE_0000, 0x1_0000) || InBlock(n, 0xAC10_0000, 0x10_0000)
            || InBlock(n, 0xC0A8_0000, 0x1_0000) || InBlock(n, 0xC000_0000, 0x100)
            || InBlock(n, 0xC612_0000, 0x2_0000) || InBlock(n, 0xE000_0000, 0x2000_0000)
            || InBlock(n, 0xC000_0200, 0x100) || InBlock(n, 0xC633_6400, 0x100)
            || InBlock(n, 0xCB00_7100, 0x100)
  {
    assert o[0] in o && o[1] in o && o[2] in o && o[3] in o;
  }

  /** Of the IPv6 addresses that embed no IPv4 address, five whole prefixes are blocked. */
  lemma BlockedIPv6Prefixes(g: Groups)
    ensures IsBlockedForm(V6(g)) <==>
            || 0xFC00 <= g[0] < 0xFE00 || 0xFE80 <= g[0] < 0xFF00 || 0xFF00 <= g[0]
            || (g[0] == 0x2001 && g[1] == 0x0DB8)
  {
    assert g[0] in g;
  }
}
