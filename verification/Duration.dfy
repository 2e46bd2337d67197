/** ICAL.Duration: conversion to and from seconds and to and from text (section 3.3.6 of RFC 5545). */
module CalendarDuration {
  import opened CalendarRules
  import opened Wrappers
  import opened WhiteSpace

  datatype ParseError = MissingNumber | InvalidNumber | TooFewComponents

  /** The components of a duration as a value. */
  datatype Parts = Parts(weeks: int, days: int, hours: int, minutes: int, seconds: int, isNegative: bool)

  const NO_PARTS := Parts(0, 0, 0, 0, 0, false)

  function ToSeconds(p: Parts): int {
    var t := p.seconds + 60 * p.minutes + 3600 * p.hours + 86400 * p.days + 604800 * p.weeks;
    if p.isNegative then -t else t
  }

  predicate NonNegative(p: Parts) {
    p.weeks >= 0 && p.days >= 0 && p.hours >= 0 && p.minutes >= 0 && p.seconds >= 0
  }

  /** The one way `FromSeconds` splits a count: weeks only when they are exact. */
  predicate Canonical(p: Parts) {
    && NonNegative(p) && p.hours < 24 && p.minutes < 60 && p.seconds < 60
    && (p.days % 7 == 0 ==> p.days == 0)
    && (p.days > 0 ==> p.weeks == 0)
    && (p.isNegative ==> ToSeconds(p) < 0)
  }

  class Duration {
    var weeks: int
    var days: int
    var hours: int
    var minutes: int
    var seconds: int
    var isNegative: bool

    ghost function Value(): Parts
      reads this
    {
      Parts(weeks, days, hours, minutes, seconds, isNegative)
    }

    constructor (data: Parts)
      ensures Value() == data
    {
      weeks, days, hours := data.weeks, data.days, data.hours;
      minutes, seconds, isNegative := data.minutes, data.seconds, data.isNegative;
    }

    /** Splits a count of seconds; converting back gives the count again. */
    method FromSeconds(total: int)
      modifies this
      ensures ToSeconds(Value()) == total
      ensures Canonical(Value())
    {
      var rest := if total < 0 then -total else total;
      isNegative := total < 0;
      days := Trunc(rest, 86400);
      if Rem(days, 7) == 0 {
        weeks := Trunc(days, 7);
        days := 0;
      } else {
        weeks := 0;
      }
      rest := rest - 86400 * (days + 7 * weeks);
      hours := Trunc(rest, 3600);
      rest := rest - 3600 * hours;
      minutes := Trunc(rest, 60);
      rest := rest - 60 * minutes;
      seconds := rest;
    }

    /** The text of the duration, built up piece by piece. */
    method ToString() returns (text: string)
      ensures text == Text(Value())
    {
      hide Decimal, Text;
      if seconds + 60 * minutes + 3600 * hours + 86400 * days + 604800 * weeks == 0 {
        TextOfZero(Value());
        return "PT0S";
      }
      text := if isNegative then "-P" else "P";
      var weeksOnly := false;
      if weeks != 0 {
        if days != 0 || hours != 0 || minutes != 0 || seconds != 0 {
          text := text + (Decimal(7 * weeks + days) + "D");
        } else {
          text := text + (Decimal(weeks) + "W");
          weeksOnly := true;
        }
      } else if days != 0 {
        text := text + (Decimal(days) + "D");
      }
      ghost var head := if isNegative then "-P" else "P";
      assert text == head + DateText(Value());
      if !weeksOnly && (hours != 0 || minutes != 0 || seconds != 0) {
        var time := TimeToString();
        text := text + time;
      }
      TextAppends(Value());
    }

    /** The part of the text behind the T. */
    method TimeToString() returns (time: string)
      requires hours != 0 || minutes != 0 || seconds != 0
      ensures time == TimeText(Value())
    {
      hide Decimal, Text;
      time := "T";
      if hours != 0 {
        time := time + (Decimal(hours) + "H");
      }
      ghost var front := "T" + Segment(hours, 'H');
      assert time == front;
      if minutes != 0 {
        time := time + (Decimal(minutes) + "M");
      }
      assert time == front + Segment(minutes, 'M');
      front := front + Segment(minutes, 'M');
      if seconds != 0 {
        time := time + (Decimal(seconds) + "S");
      }
      assert time == front + Segment(seconds, 'S');
      hide Segment;
      Associate("T", Segment(hours, 'H'), Segment(minutes, 'M'), Segment(seconds, 'S'));
    }

    /** Reads designators from left to right, each with the number in front of it. */
    static method FromString(text: string) returns (r: Result<Duration, ParseError>)
      ensures r.Ok? <==> ParseText(text).Ok?
      ensures r.Ok? ==> fresh(r.value) && r.value.Value() == ParseText(text).value
      ensures r.Err? ==> r.error == ParseText(text).error
    {
      var rest, found := text, 0;
      var data := NO_PARTS;
      var n := FirstDesignator(rest);
      while n < |rest|
        invariant 0 <= n == FirstDesignator(rest)
        invariant ParseFrom(text, NO_PARTS, 0) == ParseFrom(rest, data, found)
        decreases |rest|
      {
        var part := Component(rest[n], rest[..n], data);
        if part.Err? {
          return Err(part.error);
        }
        found := found + (if rest[n] == 'T' then 0 else 1);
        data := part.value;
        rest := rest[n + 1..];
        n := FirstDesignator(rest);
      }
      if found < 2 {
        return Err(TooFewComponents);
      }
      var d := new Duration(data);
      return Ok(d);
    }
  }

  // ----- decimal numerals -----

  function Digit(d: int): (c: char)
    requires 0 <= d < 10
    ensures '0' <= c <= '9' && c as int - '0' as int == d
  {
    ['0', '1', '2', '3', '4', '5', '6', '7', '8', '9'][d]
  }

  function Decimal(n: int): (text: string)
    ensures text != ""
    decreases n < 0, if n < 0 then -n else n
  {
    if n < 0 then "-" + Decimal(-n)
    else if n < 10 then [Digit(n)]
    else Decimal(n / 10) + [Digit(n % 10)]
  }

  predicate IsDigit(c: char) {
    '0' <= c <= '9'
  }

  predicate AllDigits(text: string) {
    forall i :: 0 <= i < |text| ==> IsDigit(text[i])
  }

  /** The value of a digit string. */
  function DigitsValue(text: string): int
    requires AllDigits(text)
  {
    if text == "" then 0
    else 10 * DigitsValue(text[..|text| - 1]) + (text[|text| - 1] as int - '0' as int)
  }

  /** How many digits the text starts with. */
  function DigitRun(text: string): (n: nat)
    ensures n <= |text| && AllDigits(text[..n])
    ensures n < |text| ==> !IsDigit(text[n])
  {
    if text == "" || !IsDigit(text[0]) then 0 else
      var n := DigitRun(text[1..]);
      assert text[..n + 1] == [text[0]] + text[1..][..n];
      n + 1
  }

  /** parseInt with radix 10: blanks, a sign, and the digits that follow. */
  function ParseInt(text: string): Option<int> {
    if text == "" then None
    else if IsSpace(text[0]) then ParseInt(text[1..])
    else
      var signed := text[0] == '-' || text[0] == '+';
      var body := if signed then text[1..] else text;
      var n := DigitRun(body);
      if n == 0 then None
      else Some(if text[0] == '-' then -DigitsValue(body[..n]) else DigitsValue(body[..n]))
  }

  lemma {:induction false} DecimalDigits(n: nat)
    ensures AllDigits(Decimal(n)) && DigitsValue(Decimal(n)) == n
  {
    if n >= 10 {
      DecimalDigits(n / 10);
      var text := Decimal(n);
      assert text[..|text| - 1] == Decimal(n / 10);
    } else {
      assert Decimal(n)[..0] == "";
    }
  }

  lemma {:induction false} DigitRunAll(text: string)
    requires AllDigits(text)
    ensures DigitRun(text) == |text|
  {
    if text != "" {
      DigitRunAll(text[1..]);
    }
  }

  /** A printed number is read back. */
  lemma ParseDecimal(n: int)
    ensures ParseInt(Decimal(n)) == Some(n)
  {
    var digits := Decimal(if n < 0 then -n else n);
    DecimalDigits(if n < 0 then -n else n);
    DigitRunAll(digits);
    assert digits[..|digits|] == digits;
    assert IsDigit(digits[0]);
    assert n < 0 ==> Decimal(n)[1..] == digits;
  }

  // ----- printing and parsing -----

  predicate IsDesignator(c: char) {
    c == 'P' || c == 'D' || c == 'W' || c == 'H' || c == 'M' || c == 'T' || c == 'S'
  }

  /** The position of the first designator, or the length when there is none. */
  function FirstDesignator(text: string): (n: nat)
    ensures n <= |text|
    ensures n < |text| ==> IsDesignator(text[n])
    ensures forall i :: 0 <= i < n ==> !IsDesignator(text[i])
  {
    if text == "" || IsDesignator(text[0]) then 0 else 1 + FirstDesignator(text[1..])
  }

  /** Records one component: the number in front of a designator. */
  function Component(designator: char, number: string, data: Parts): Result<Parts, ParseError> {
    if designator == 'P' then Ok(data.(isNegative := number == "-"))
    else if designator == 'T' then Ok(data)
    else if number == "" then Err(MissingNumber)
    else match ParseInt(number)
      case None => Err(InvalidNumber)
      case Some(i) => Ok(WithComponent(data, designator, i))
  }

  function WithComponent(data: Parts, designator: char, i: int): Parts {
    if designator == 'W' then data.(weeks := i)
    else if designator == 'D' then data.(days := i)
    else if designator == 'H' then data.(hours := i)
    else if designator == 'M' then data.(minutes := i)
    else data.(seconds := i)
  }

  function ParseFrom(text: string, data: Parts, found: nat): Result<Parts, ParseError>
    decreases |text|
  {
    var n := FirstDesignator(text);
    if n == |text| then (if found < 2 then Err(TooFewComponents) else Ok(data))
    else match Component(text[n], text[..n], data)
      case Err(e) => Err(e)
      case Ok(next) => ParseFrom(text[n + 1..], next, found + (if text[n] == 'T' then 0 else 1))
  }

  function ParseText(text: string): Result<Parts, ParseError> {
    ParseFrom(text, NO_PARTS, 0)
  }

  function Segment(n: int, designator: char): string {
    if n == 0 then "" else Decimal(n) + [designator]
  }

  function TimeText(p: Parts): string {
    if p.hours == 0 && p.minutes == 0 && p.seconds == 0 then ""
    else "T" + (Segment(p.hours, 'H') + (Segment(p.minutes, 'M') + Segment(p.seconds, 'S')))
  }

  function DateText(p: Parts): string {
    if p.weeks == 0 then Segment(p.days, 'D')
    else if p.days == 0 && TimeText(p) == "" then Decimal(p.weeks) + "W"
    else Decimal(7 * p.weeks + p.days) + "D"
  }

  function Text(p: Parts): string {
    if ToSeconds(p) == 0 then "PT0S"
    else (if p.isNegative then "-" else "") + ("P" + (DateText(p) + TimeText(p)))
  }

  lemma Associate(a: string, b: string, c: string, d: string)
    ensures ((a + b) + c) + d == a + (b + (c + d))
    ensures (a + b) + c == a + (b + c)
  {
  }

  lemma TextOfZero(p: Parts)
    requires ToSeconds(p) == 0
    ensures Text(p) == "PT0S"
  {
  }

  lemma TextAppends(p: Parts)
    requires ToSeconds(p) != 0
    ensures Text(p) == (if p.isNegative then "-P" else "P") + DateText(p) + TimeText(p)
  {
    hide DateText, TimeText;
    Associate("", "P", DateText(p), TimeText(p));
    assert Text(p) == (if p.isNegative then "-" else "") + ("P" + (DateText(p) + TimeText(p)));
  }

  lemma {:induction false} FirstDesignatorAfter(number: string, rest: string)
    requires forall i :: 0 <= i < |number| ==> !IsDesignator(number[i])
    requires rest != "" && IsDesignator(rest[0])
    ensures FirstDesignator(number + rest) == |number|
  {
    if number == "" {
      assert number + rest == rest;
    } else {
      assert (number + rest)[1..] == number[1..] + rest;
      FirstDesignatorAfter(number[1..], rest);
    }
  }

  /** Parsing consumes one printed component and records its number. */
  lemma ParseSegment(n: int, c: char, rest: string, data: Parts, found: nat)
    requires c == 'W' || c == 'D' || c == 'H' || c == 'M' || c == 'S'
    ensures ParseFrom(Decimal(n) + [c] + rest, data, found) == ParseFrom(rest, WithComponent(data, c, n), found + 1)
  {
    var number := Decimal(n);
    var text := number + [c] + rest;
    DecimalDigits(if n < 0 then -n else n);
    ParseDecimal(n);
    assert text == number + ([c] + rest);
    FirstDesignatorAfter(number, [c] + rest);
    assert text[..|number|] == number && text[|number|] == c && text[|number| + 1..] == rest;
  }

  lemma ParseOptional(n: int, c: char, rest: string, data: Parts, found: nat)
    requires c == 'W' || c == 'D' || c == 'H' || c == 'M' || c == 'S'
    requires WithComponent(data, c, 0) == data
    ensures ParseFrom(Segment(n, c) + rest, data, found)
            == ParseFrom(rest, WithComponent(data, c, n), found + (if n == 0 then 0 else 1))
  {
    if n == 0 {
      assert Segment(n, c) + rest == rest;
    } else {
      ParseSegment(n, c, rest, data, found);
    }
  }

  lemma ParseT(body: string, data: Parts, found: nat)
    ensures ParseFrom("T" + body, data, found) == ParseFrom(body, data, found)
  {
    var text := "T" + body;
    FirstDesignatorAfter("", text);
    assert "" + text == text && text[1..] == body;
  }

  lemma ParseTime(p: Parts, data: Parts, found: nat)
    requires data.hours == data.minutes == data.seconds == 0
    requires found >= 2 || (found >= 1 && TimeText(p) != "")
    ensures ParseFrom(TimeText(p), data, found)
            == Ok(data.(hours := p.hours, minutes := p.minutes, seconds := p.seconds))
  {
    if TimeText(p) != "" {
      hide ParseFrom, Segment;
      var last := Segment(p.seconds, 'S');
      var tail := Segment(p.minutes, 'M') + last;
      ParseT(Segment(p.hours, 'H') + tail, data, found);
      ParseOptional(p.hours, 'H', tail, data, found);
      var d1 := data.(hours := p.hours);
      var f1 := found + (if p.hours == 0 then 0 else 1);
      ParseOptional(p.minutes, 'M', last, d1, f1);
      var d2 := d1.(minutes := p.minutes);
      var f2 := f1 + (if p.minutes == 0 then 0 else 1);
      assert last + "" == last;
      ParseOptional(p.seconds, 'S', "", d2, f2);
      ParseEnd(d2.(seconds := p.seconds), f2 + (if p.seconds == 0 then 0 else 1));
    }
  }

  lemma ParseEnd(data: Parts, found: nat)
    requires found >= 2
    ensures ParseFrom("", data, found) == Ok(data)
  {
  }

  lemma ParseSign(negative: bool, body: string)
    ensures ParseText((if negative then "-" else "") + ("P" + body)) == ParseFrom(body, NO_PARTS.(isNegative := negative), 1)
  {
    var sign := if negative then "-" else "";
    var text := sign + ("P" + body);
    FirstDesignatorAfter(sign, "P" + body);
    assert text[..|sign|] == sign && text[|sign|] == 'P' && text[|sign| + 1..] == body;
  }

  lemma SomeText(p: Parts)
    requires ToSeconds(p) != 0
    ensures p.weeks == 0 && p.days == 0 ==> TimeText(p) != ""
  {
  }

  lemma ParseBody(p: Parts, data: Parts)
    requires ToSeconds(p) != 0
    requires data == NO_PARTS.(isNegative := p.isNegative)
    ensures ParseFrom(DateText(p) + TimeText(p), data, 1).Ok?
    ensures ToSeconds(ParseFrom(DateText(p) + TimeText(p), data, 1).value) == ToSeconds(p)
  {
    hide ParseFrom, TimeText;
    SomeText(p);
    if p.weeks == 0 {
      ParseOptional(p.days, 'D', TimeText(p), data, 1);
      ParseTime(p, data.(days := p.days), if p.days == 0 then 1 else 2);
    } else if p.days == 0 && TimeText(p) == "" {
      ParseSegment(p.weeks, 'W', TimeText(p), data, 1);
      ParseTime(p, data.(weeks := p.weeks), 2);
    } else {
      ParseSegment(7 * p.weeks + p.days, 'D', TimeText(p), data, 1);
      ParseTime(p, data.(days := 7 * p.weeks + p.days), 2);
    }
  }

  /** Printing a duration and parsing the text keeps its length, for all integer components. */
  lemma ParsePrinted(p: Parts)
    ensures ParseText(Text(p)).Ok? && ToSeconds(ParseText(Text(p)).value) == ToSeconds(p)
  {
    hide ParseFrom, DateText, TimeText;
    if ToSeconds(p) == 0 {
      ParsePrintedZero();
    } else {
      ParseSign(p.isNegative, DateText(p) + TimeText(p));
      ParseBody(p, NO_PARTS.(isNegative := p.isNegative));
    }
  }

  lemma ParsePrintedZero()
    ensures ParseText("PT0S") == Ok(NO_PARTS)
  {
    assert ParseText("PT0S") == ParseFrom("T0S", NO_PARTS, 1) by {
      FirstDesignatorAfter("", "PT0S");
      assert "" + "PT0S" == "PT0S" && "PT0S"[1..] == "T0S";
    }
    assert ParseFrom("T0S", NO_PARTS, 1) == ParseFrom("0S", NO_PARTS, 1) by {
      FirstDesignatorAfter("", "T0S");
      assert "" + "T0S" == "T0S" && "T0S"[1..] == "0S";
    }
    assert Decimal(0) + "S" + "" == "0S";
    ParseSegment(0, 'S', "", NO_PARTS, 1);
  }
}
