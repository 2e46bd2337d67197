/**
 * Text values of ICAL.js: escaping, and lists of values joined by a delimiter (section 3.3.11
 * of RFC 5545). Strings are the UTF-16 code units of the host.
 */
module TextValues {
  type Unit = c: int | 0 <= c < 0x1_0000

  type Units = seq<Unit>

  const BACKSLASH: Unit := 92
  const SEMICOLON: Unit := 59
  const COMMA: Unit := 44
  const NEWLINE: Unit := 10
  const SMALL_N: Unit := 110
  const CAPITAL_N: Unit := 78

  predicate IsSpecial(c: Unit) {
    c == BACKSLASH || c == SEMICOLON || c == COMMA || c == NEWLINE
  }

  /** What a special character is written as, after the backslash. */
  function EscapeCode(c: Unit): Unit
    requires IsSpecial(c)
  {
    if c == NEWLINE then SMALL_N else c
  }

  /** toICAL: a backslash in front of every backslash, semicolon, comma and newline. */
  function Escape(text: Units): Units {
    if text == [] then []
    else (if IsSpecial(text[0]) then [BACKSLASH, EscapeCode(text[0])] else [text[0]]) + Escape(text[1..])
  }

  /** The character an escape stands for; any other pair is left as it is. */
  predicate IsEscapeCode(c: Unit) {
    c == BACKSLASH || c == SEMICOLON || c == COMMA || c == SMALL_N || c == CAPITAL_N
  }

  function Unescaped(c: Unit): Unit
    requires IsEscapeCode(c)
  {
    if c == SMALL_N || c == CAPITAL_N then NEWLINE else c
  }

  /** fromICAL: replaces escapes from left to right, without overlap. */
  function Unescape(text: Units): Units {
    if text == [] then []
    else if text[0] == BACKSLASH && |text| >= 2 && IsEscapeCode(text[1]) then
      [Unescaped(text[1])] + Unescape(text[2..])
    else [text[0]] + Unescape(text[1..])
  }

  /** Unescaping undoes escaping, for every text. */
  lemma {:induction false} UnescapeEscape(text: Units)
    ensures Unescape(Escape(text)) == text
  {
    if text != [] {
      var head := if IsSpecial(text[0]) then [BACKSLASH, EscapeCode(text[0])] else [text[0]];
      var rest := Escape(text[1..]);
      UnescapeEscape(text[1..]);
      assert (head + rest)[|head|..] == rest;
      assert Unescape(head + rest) == [text[0]] + Unescape(rest);
    }
  }

  // ----- lists of values -----

  /** Lt.multiValue over text: the escaped values with a delimiter between them. */
  method MultiValue(values: seq<Units>, delimiter: Unit) returns (text: Units)
    ensures text == Join(values, delimiter)
  {
    text := [];
    var i := 0;
    while i < |values|
      invariant 0 <= i <= |values|
      invariant text + Join(values[i..], delimiter) == Join(values, delimiter)
    {
      ghost var before := text;
      JoinFirst(values, i, delimiter);
      text := text + Escape(values[i]);
      if i != |values| - 1 {
        text := text + [delimiter];
        Associate(before, Escape(values[i]), [delimiter], Join(values[i + 1..], delimiter));
      }
      i := i + 1;
    }
  }

  lemma Associate(a: Units, b: Units, c: Units, d: Units)
    ensures (a + b + c) + d == a + (b + (c + d))
  {
  }

  lemma JoinFirst(values: seq<Units>, i: nat, delimiter: Unit)
    requires i < |values|
    ensures Join(values[i..], delimiter)
            == if i == |values| - 1 then Escape(values[i])
               else Escape(values[i]) + ([delimiter] + Join(values[i + 1..], delimiter))
    ensures Join([], delimiter) == [] && (i == |values| - 1 ==> values[i + 1..] == [])
  {
    assert values[i..][0] == values[i] && values[i..][1..] == values[i + 1..];
  }

  function Join(values: seq<Units>, delimiter: Unit): Units {
    if values == [] then []
    else if |values| == 1 then Escape(values[0])
    else Escape(values[0]) + ([delimiter] + Join(values[1..], delimiter))
  }

  /** A delimiter counts unless the unit in front of it is a backslash. */
  predicate IsBreak(text: Units, delimiter: Unit, i: int)
    requires 0 <= i < |text|
  {
    text[i] == delimiter && !(i > 0 && text[i - 1] == BACKSLASH)
  }

  function IndexOf(text: Units, c: Unit, from: nat): (r: int)
    requires from <= |text|
    ensures r == -1 || (from <= r < |text| && text[r] == c)
    ensures forall i :: from <= i < (if r == -1 then |text| else r) ==> text[i] != c
    decreases |text| - from
  {
    if from == |text| then -1
    else if text[from] == c then from
    else IndexOf(text, c, from + 1)
  }

  /** The first break at or after a position, or -1. */
  method UnescapedIndexOf(text: Units, delimiter: Unit, start: nat) returns (n: int)
    requires start <= |text|
    ensures n == -1 || (start <= n < |text| && IsBreak(text, delimiter, n))
    ensures forall i :: start <= i < (if n == -1 then |text| else n) ==> !IsBreak(text, delimiter, i)
  {
    n := IndexOf(text, delimiter, start);
    while n != -1
      invariant n == -1 || (start <= n < |text| && text[n] == delimiter)
      invariant forall i :: start <= i < (if n == -1 then |text| else n) ==> !IsBreak(text, delimiter, i)
      decreases if n == -1 then 0 else |text| - n
    {
      if !(n > 0 && text[n - 1] == BACKSLASH) {
        return n;
      }
      n := IndexOf(text, delimiter, n + 1);
    }
  }

  /** The pieces between breaks, from a position on. */
  function Pieces(text: Units, delimiter: Unit, from: nat): (r: seq<Units>)
    requires from <= |text|
    ensures |r| > 0
    decreases |text| - from
  {
    var n := NextBreak(text, delimiter, from);
    if n == |text| then [text[from..]]
    else [text[from..n]] + Pieces(text, delimiter, n + 1)
  }

  function NextBreak(text: Units, delimiter: Unit, from: nat): (n: nat)
    requires from <= |text|
    ensures from <= n <= |text|
    ensures n < |text| ==> IsBreak(text, delimiter, n)
    ensures forall i :: from <= i < n ==> !IsBreak(text, delimiter, i)
    decreases |text| - from
  {
    if from == |text| || IsBreak(text, delimiter, from) then from else NextBreak(text, delimiter, from + 1)
  }

  function UnescapeAll(pieces: seq<Units>): (r: seq<Units>)
    ensures |r| == |pieces|
    ensures forall i :: 0 <= i < |r| ==> r[i] == Unescape(pieces[i])
  {
    if pieces == [] then [] else [Unescape(pieces[0])] + UnescapeAll(pieces[1..])
  }

  function SplitValues(text: Units, delimiter: Unit): (r: seq<Units>)
    ensures |r| > 0
  {
    UnescapeAll(Pieces(text, delimiter, 0))
  }

  /** C._parseMultiValue over text values, collecting into a fresh list. */
  method ParseMultiValue(text: Units, delimiter: Unit) returns (values: seq<Units>)
    ensures values == SplitValues(text, delimiter)
  {
    values := [];
    var last := 0;
    var n := UnescapedIndexOf(text, delimiter, last);
    while n != -1
      invariant 0 <= last <= |text|
      invariant n == -1 || (last <= n < |text| && IsBreak(text, delimiter, n))
      invariant forall i :: last <= i < (if n == -1 then |text| else n) ==> !IsBreak(text, delimiter, i)
      invariant values + UnescapeAll(Pieces(text, delimiter, last)) == SplitValues(text, delimiter)
      decreases |text| - last
    {
      PiecesFrom(text, delimiter, last, n);
      Shift(values, Unescape(text[last..n]), UnescapeAll(Pieces(text, delimiter, n + 1)));
      values := values + [Unescape(text[last..n])];
      last := n + 1;
      n := UnescapedIndexOf(text, delimiter, last);
    }
    PiecesFrom(text, delimiter, last, |text|);
    values := values + [Unescape(text[last..])];
  }

  lemma Shift(a: seq<Units>, b: Units, c: seq<Units>)
    ensures a + ([b] + c) == (a + [b]) + c
  {
  }

  lemma PiecesFrom(text: Units, delimiter: Unit, from: nat, n: nat)
    requires from <= n <= |text| && (n < |text| ==> IsBreak(text, delimiter, n))
    requires forall i :: from <= i < n ==> !IsBreak(text, delimiter, i)
    ensures UnescapeAll(Pieces(text, delimiter, from))
            == if n == |text| then [Unescape(text[from..])]
               else [Unescape(text[from..n])] + UnescapeAll(Pieces(text, delimiter, n + 1))
  {
    assert NextBreak(text, delimiter, from) == n;
  }

  predicate EndsInBackslash(text: Units) {
    text != [] && text[|text| - 1] == BACKSLASH
  }

  predicate Separable(values: seq<Units>) {
    forall i :: 0 <= i < |values| - 1 ==> !EndsInBackslash(values[i])
  }

  predicate IsDelimiter(c: Unit) {
    c == COMMA || c == SEMICOLON
  }

  /** An escaped text has no break inside, and ends in a backslash exactly when the text does. */
  lemma {:induction false} EscapeHidesDelimiters(text: Units, delimiter: Unit, i: int)
    requires IsDelimiter(delimiter) && 0 <= i < |Escape(text)|
    ensures Escape(text)[i] == delimiter ==> i > 0 && Escape(text)[i - 1] == BACKSLASH
  {
    var head := if IsSpecial(text[0]) then [BACKSLASH, EscapeCode(text[0])] else [text[0]];
    if i >= |head| {
      EscapeHidesDelimiters(text[1..], delimiter, i - |head|);
    }
  }

  lemma {:induction false} EscapeEnd(text: Units)
    ensures EndsInBackslash(Escape(text)) == EndsInBackslash(text)
    ensures Escape(text) == [] <==> text == []
  {
    if |text| == 1 {
      assert text[1..] == [];
    } else if |text| > 1 {
      EscapeEnd(text[1..]);
    }
  }

  function EscapeAll(values: seq<Units>): (r: seq<Units>)
    ensures |r| == |values| && forall i :: 0 <= i < |r| ==> r[i] == Escape(values[i])
  {
    if values == [] then [] else [Escape(values[0])] + EscapeAll(values[1..])
  }

  /** A prefix after which a delimiter would count. */
  predicate Clean(prefix: Units) {
    prefix == [] || prefix[|prefix| - 1] != BACKSLASH
  }

  /** The first value of a joined list holds no break; the delimiter after it is one unless the value ends in a backslash. */
  lemma FirstValue(prefix: Units, value: Units, delimiter: Unit, rest: Units)
    requires IsDelimiter(delimiter) && Clean(prefix)
    ensures var text := prefix + (Escape(value) + ([delimiter] + rest));
      var end := |prefix| + |Escape(value)|;
      && (forall i :: |prefix| <= i < end ==> !IsBreak(text, delimiter, i))
      && (IsBreak(text, delimiter, end) <==> !EndsInBackslash(value))
  {
    var e := Escape(value);
    var text := prefix + (e + ([delimiter] + rest));
    forall i | |prefix| <= i < |prefix| + |e|
      ensures !IsBreak(text, delimiter, i)
    {
      EscapeHidesDelimiters(value, delimiter, i - |prefix|);
    }
    EscapeEnd(value);
    assert text[|prefix| + |e|] == delimiter;
  }

  lemma LastValue(prefix: Units, value: Units, delimiter: Unit)
    requires IsDelimiter(delimiter)
    ensures Pieces(prefix + Escape(value), delimiter, |prefix|) == [Escape(value)]
  {
    var text := prefix + Escape(value);
    forall i | |prefix| <= i < |text|
      ensures !IsBreak(text, delimiter, i)
    {
      EscapeHidesDelimiters(value, delimiter, i - |prefix|);
    }
    assert NextBreak(text, delimiter, |prefix|) == |text|;
    assert text[|prefix|..] == Escape(value);
  }

  lemma {:induction false} SkipTo(text: Units, delimiter: Unit, from: nat, upto: nat)
    requires from <= upto <= |text| && forall i :: from <= i < upto ==> !IsBreak(text, delimiter, i)
    ensures NextBreak(text, delimiter, from) == NextBreak(text, delimiter, upto)
    decreases upto - from
  {
    if from < upto {
      SkipTo(text, delimiter, from + 1, upto);
    }
  }

  lemma SeparableOne(values: seq<Units>)
    requires |values| == 1
    ensures Separable(values)
  {
  }

  lemma SeparableStep(values: seq<Units>)
    requires |values| > 1
    ensures Separable(values) <==> !EndsInBackslash(values[0]) && Separable(values[1..])
  {
    assert forall i :: 0 <= i < |values| - 2 ==> values[1..][i] == values[i + 1];
    if !EndsInBackslash(values[0]) && Separable(values[1..]) {
      forall i | 0 <= i < |values| - 1
        ensures !EndsInBackslash(values[i])
      {
        assert i > 0 ==> values[i] == values[1..][i - 1];
      }
    }
  }

  lemma PieceEnds(text: Units, delimiter: Unit, from: nat, end: nat)
    requires from <= end < |text| && IsBreak(text, delimiter, end)
    requires forall i :: from <= i < end ==> !IsBreak(text, delimiter, i)
    ensures Pieces(text, delimiter, from) == [text[from..end]] + Pieces(text, delimiter, end + 1)
  {
    assert NextBreak(text, delimiter, from) == end;
  }

  lemma PieceSkips(text: Units, delimiter: Unit, from: nat, upto: nat)
    requires from <= upto <= |text| && forall i :: from <= i < upto ==> !IsBreak(text, delimiter, i)
    ensures |Pieces(text, delimiter, from)| == |Pieces(text, delimiter, upto)|
  {
    SkipTo(text, delimiter, from, upto);
  }

  /** The first value becomes a piece of its own, or runs into the piece that follows. */
  lemma FirstPiece(prefix: Units, value: Units, delimiter: Unit, rest: Units)
    requires IsDelimiter(delimiter) && Clean(prefix)
    ensures var next := prefix + (Escape(value) + [delimiter]);
      var pieces := Pieces(prefix + (Escape(value) + ([delimiter] + rest)), delimiter, |prefix|);
      var others := Pieces(next + rest, delimiter, |next|);
      if EndsInBackslash(value) then |pieces| == |others| else pieces == [Escape(value)] + others
  {
    hide Pieces, Escape;
    var text := prefix + (Escape(value) + ([delimiter] + rest));
    var end := |prefix| + |Escape(value)|;
    FirstValue(prefix, value, delimiter, rest);
    assert text == prefix + (Escape(value) + [delimiter]) + rest;
    if EndsInBackslash(value) {
      PieceSkips(text, delimiter, |prefix|, end + 1);
    } else {
      PieceEnds(text, delimiter, |prefix|, end);
      assert text[|prefix|..end] == Escape(value);
    }
  }

  /** Splitting a joined list gives one piece a value, or too few pieces. */
  lemma {:induction false} PiecesOfJoin(prefix: Units, values: seq<Units>, delimiter: Unit)
    requires IsDelimiter(delimiter) && Clean(prefix) && values != []
    ensures var pieces := Pieces(prefix + Join(values, delimiter), delimiter, |prefix|);
      if Separable(values) then pieces == EscapeAll(values) else |pieces| < |values|
    decreases |values|
  {
    hide Pieces, Separable, Escape;
    if |values| == 1 {
      LastValue(prefix, values[0], delimiter);
      SeparableOne(values);
    } else {
      SeparableStep(values);
      FirstPiece(prefix, values[0], delimiter, Join(values[1..], delimiter));
      PiecesOfJoin(prefix + (Escape(values[0]) + [delimiter]), values[1..], delimiter);
    }
  }

  lemma {:induction false} UnescapeEscapeAll(values: seq<Units>)
    ensures UnescapeAll(EscapeAll(values)) == values
  {
    if values != [] {
      UnescapeEscape(values[0]);
      UnescapeEscapeAll(values[1..]);
    }
  }

  /**
   * Joining a non-empty list of text values and splitting it again returns the list exactly when
   * no value but the last ends in a backslash: the delimiter scan looks one unit back only.
   */
  lemma SplitJoin(values: seq<Units>, delimiter: Unit)
    requires IsDelimiter(delimiter) && values != []
    ensures SplitValues(Join(values, delimiter), delimiter) == values <==> Separable(values)
  {
    PiecesOfJoin([], values, delimiter);
    assert [] + Join(values, delimiter) == Join(values, delimiter);
    UnescapeEscapeAll(values);
  }

  /** Two values, the first a lone backslash, come back as one. */
  lemma BackslashMergesValues()
    ensures SplitValues(Join([[BACKSLASH], [SMALL_N]], COMMA), COMMA) != [[BACKSLASH], [SMALL_N]]
  {
    var values: seq<Units> := [[BACKSLASH], [SMALL_N]];
    assert EndsInBackslash(values[0]);
    SplitJoin(values, COMMA);
  }
}
