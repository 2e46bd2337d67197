/** Zeller's weekday formula as ICAL.Time evaluates it, and the key under which answers are kept. */
module Weekdays {
  import opened CalendarRules

  /** The weekday 1..7 counted from the week start (1 is Sunday). */
  function Zeller(year: int, month: int, day: int, weekStart: int): int {
    var m := month + (if month < 3 then 12 else 0);
    var y := year - (if month < 3 then 1 else 0);
    var sum := day + y + Trunc(26 * (m + 1), 10) + Trunc(y, 4) + (6 * Trunc(y, 100) + Trunc(y, 400));
    Rem(sum + 7 - weekStart, 7) + 1
  }

  /** The leap rule hidden in the formula: truncation shifts it by one year up to year 0. */
  predicate FormulaLeap(year: int) {
    IsGregorianLeapYear(if year > 0 then year else year - 1)
  }

  /** The month term of the formula for the months 3..14 of a year that starts in March. */
  function MonthTerm(m: int): int
    requires 3 <= m <= 14
  {
    [10, 13, 15, 18, 20, 23, 26, 28, 31, 33, 36, 39][m - 3]
  }

  /** Sevens between the days before a March-based month and its term in the formula. */
  function MonthSevens(m: int): int
    requires 3 <= m <= 14
  {
    [7, 11, 15, 19, 23, 27, 31, 35, 39, 43, 47, 51][m - 3]
  }

  /** The sum the formula reduces modulo 7. */
  function ZellerSum(year: int, month: int, day: int, weekStart: int): int
    requires 1 <= month <= 12
  {
    var m := month + (if month < 3 then 12 else 0);
    var y := year - (if month < 3 then 1 else 0);
    day + y + MonthTerm(m) + Trunc(y, 4) + 6 * Trunc(y, 100) + Trunc(y, 400) + 7 - weekStart
  }

  lemma ProductTerm(m: int)
    requires 3 <= m <= 14
    ensures Trunc(26 * (m + 1), 10) == MonthTerm(m)
  {
  }

  lemma ZellerReducesSum(year: int, month: int, day: int, weekStart: int)
    requires 1 <= month <= 12
    ensures Zeller(year, month, day, weekStart) == Rem(ZellerSum(year, month, day, weekStart), 7) + 1
  {
    hide Trunc, MonthTerm, Rem;
    ProductTerm(month + (if month < 3 then 12 else 0));
  }

  lemma MarchBased(year: int, month: int, day: int, m: int, y: int)
    requires 1 <= month <= 12
    requires m == month + (if month < 3 then 12 else 0) && y == year - (if month < 3 then 1 else 0)
    ensures DayNumber(year, month, day) == YearStart(y + 1) - 365 + MonthTerm(m) + 7 * MonthSevens(m) + day
  {
    hide YearStart;
    var i := MonthIndex(year, month);
    assert i / 12 == year && i % 12 == month - 1;
    YearStartStep(y);
  }

  /** From 1753 on the formula counts days: it is the day count modulo 7. */
  lemma ZellerCountsDays(year: int, month: int, day: int, weekStart: int)
    requires year >= 1753 && IsDate(year, month, day) && 1 <= weekStart <= 7
    ensures Zeller(year, month, day, weekStart) == (DayNumber(year, month, day) + 1 - weekStart) % 7 + 1
  {
    hide DayNumber, Zeller, MonthTerm, MonthSevens;
    ZellerReducesSum(year, month, day, weekStart);
    var m := month + (if month < 3 then 12 else 0);
    var y := year - (if month < 3 then 1 else 0);
    MarchBased(year, month, day, m, y);
    var a, b, c := y / 4, y / 100, y / 400;
    assert YearStart(y + 1) == 365 * (y + 1) + a - b + c + 13;
    var sum := day + y + MonthTerm(m) + a + 6 * b + c + 7 - weekStart;
    assert sum == ZellerSum(year, month, day, weekStart);
    MonthTermPositive(m);
    Modulo7(sum, 52 * y - b + 1 + MonthSevens(m));
  }

  lemma MonthTermPositive(m: int)
    requires 3 <= m <= 14
    ensures MonthTerm(m) > 0
  {
  }

  lemma Modulo7(n: int, k: int)
    ensures (n + 7 * k) % 7 == n % 7
  {
  }

  /** Across the end of February the year terms grow by the leap day the formula believes in. */
  lemma CenturyTerms(year: int)
    ensures CenturyDelta(year) % 7 == (if FormulaLeap(year) then 1 else 0)
  {
    hide Trunc;
    TruncStep4(year);
    TruncStep100(year);
    TruncStep400(year);
    var y := if year > 0 then year else year - 1;
    Divisors(y);
    var a, b, c := if y % 4 == 0 then 1 else 0, if y % 100 == 0 then 1 else 0, if y % 400 == 0 then 1 else 0;
    assert CenturyDelta(year) == a + 6 * b + c;
  }

  lemma Divisors(y: int)
    ensures (y % 400 == 0 ==> y % 100 == 0) && (y % 100 == 0 ==> y % 4 == 0)
  {
  }

  lemma TruncStep4(year: int)
    ensures Trunc(year, 4) == Trunc(year - 1, 4) + (if (if year > 0 then year else year - 1) % 4 == 0 then 1 else 0)
  {
  }

  lemma TruncStep100(year: int)
    ensures Trunc(year, 100) == Trunc(year - 1, 100) + (if (if year > 0 then year else year - 1) % 100 == 0 then 1 else 0)
  {
  }

  lemma TruncStep400(year: int)
    ensures Trunc(year, 400) == Trunc(year - 1, 400) + (if (if year > 0 then year else year - 1) % 400 == 0 then 1 else 0)
  {
  }

  lemma RemModulo(a: int, b: int)
    ensures (Rem(a, 7) - Rem(b, 7) - 1) % 7 == (a - b - 1) % 7
  {
    var p, q := Trunc(a, 7), Trunc(b, 7);
    Modulo7(a - b - 1, q - p);
  }

  /**
   * The formula moves to the next weekday from each day to the next, over all years, except
   * across the end of a February whose length it misjudges.
   */
  lemma ZellerStep(year: int, month: int, day: int, weekStart: int)
    requires IsDate(year, month, day) && 1 <= weekStart <= 7
    ensures var (y, m, d) := NextDay(year, month, day);
      (Zeller(y, m, d, weekStart) - Zeller(year, month, day, weekStart) - 1) % 7 == 0
      <==> !(month == 2 && day == DaysInMonth(2, year) && FormulaLeap(year) != IsLeapYear(year))
  {
    hide Zeller, Rem, FormulaLeap, IsLeapYear, ZellerSum, DaysInMonth, CenturyDelta;
    var (y, m, d) := NextDay(year, month, day);
    ZellerReducesSum(y, m, d, weekStart);
    ZellerReducesSum(year, month, day, weekStart);
    RemModulo(ZellerSum(y, m, d, weekStart), ZellerSum(year, month, day, weekStart));
    SumStep(year, month, day, weekStart);
    CenturyTerms(year);
  }

  /** How the sum under the formula grows from each day to the next. */
  lemma SumStep(year: int, month: int, day: int, weekStart: int)
    requires IsDate(year, month, day)
    ensures var (y, m, d) := NextDay(year, month, day);
      1 <= m <= 12
      && ZellerSum(y, m, d, weekStart) - ZellerSum(year, month, day, weekStart) - 1
         == if day < DaysInMonth(month, year) then 0
            else if month == 2 then CenturyDelta(year) - (if IsLeapYear(year) then 1 else 0) - 56
            else -28
  {
    hide Trunc, IsLeapYear;
    if month == 2 && day == DaysInMonth(2, year) {
      FebruaryEnd(year, weekStart);
    }
  }

  function CenturyDelta(year: int): int {
    Trunc(year, 4) + 6 * Trunc(year, 100) + Trunc(year, 400)
    - Trunc(year - 1, 4) - 6 * Trunc(year - 1, 100) - Trunc(year - 1, 400)
  }

  lemma FebruaryEnd(year: int, weekStart: int)
    ensures ZellerSum(year, 3, 1, weekStart) - ZellerSum(year, 2, DaysInMonth(2, year), weekStart) - 1
            == CenturyDelta(year) - (if IsLeapYear(year) then 1 else 0) - 56
  {
    hide Trunc, IsLeapYear;
  }

  function NextDay(year: int, month: int, day: int): (int, int, int) {
    if day < DaysInMonth(month, year) then (year, month, day + 1)
    else if month < 12 then (year, month + 1, 1)
    else (year + 1, 1, 1)
  }

  // ----- the memo key -----

  /** ToInt32: the result of a shift wraps to 32 signed bits. */
  function Int32(n: int): int {
    (n + 0x8000_0000) % 0x1_0000_0000 - 0x8000_0000
  }

  /** (year << 12) + (month << 8) + (day << 3) + weekStart */
  function CacheKey(year: int, month: int, day: int, weekStart: int): int {
    Int32(4096 * year) + Int32(256 * month) + Int32(8 * day) + weekStart
  }

  lemma Int32Small(n: int)
    requires 0 <= n < 0x8000_0000
    ensures Int32(n) == n
  {
  }

  /** The wrapped year shift is the year modulo 2^20, times 4096. */
  lemma Int32OfYear(year: int)
    ensures Int32(4096 * year) == 4096 * ((year + 0x8_0000) % 0x10_0000 - 0x8_0000)
  {
    var q, r := (year + 0x8_0000) / 0x10_0000, (year + 0x8_0000) % 0x10_0000;
    assert 4096 * year + 0x8000_0000 == 0x1_0000_0000 * q + 4096 * r;
    assert 0 <= 4096 * r < 0x1_0000_0000;
  }

  /** The year as the wrapped shift keeps it. */
  function Window(year: int): int {
    (year + 0x8_0000) % 0x10_0000 - 0x8_0000
  }

  function Packed(month: int, day: int, weekStart: int): int {
    256 * month + 8 * day + weekStart
  }

  lemma KeyShape(year: int, month: int, day: int, weekStart: int)
    requires 1 <= month <= 12 && 1 <= day <= 31 && 1 <= weekStart <= 7
    ensures CacheKey(year, month, day, weekStart) == 4096 * Window(year) + Packed(month, day, weekStart)
    ensures 0 <= Packed(month, day, weekStart) < 4096
  {
    hide Int32;
    Int32OfYear(year);
    Int32Small(256 * month);
    Int32Small(8 * day);
  }

  /** Two normalised dates share a key exactly when only their years differ, by a multiple of 2^20. */
  lemma KeyCollision(y1: int, m1: int, d1: int, w1: int, y2: int, m2: int, d2: int, w2: int)
    requires IsDate(y1, m1, d1) && IsDate(y2, m2, d2) && 1 <= w1 <= 7 && 1 <= w2 <= 7
    ensures CacheKey(y1, m1, d1, w1) == CacheKey(y2, m2, d2, w2)
            <==> m1 == m2 && d1 == d2 && w1 == w2 && y1 % 0x10_0000 == y2 % 0x10_0000
  {
    hide CacheKey, IsLeapYear, Window, Packed;
    KeyShape(y1, m1, d1, w1);
    KeyShape(y2, m2, d2, w2);
    HighAndLow(Window(y1), Packed(m1, d1, w1), Window(y2), Packed(m2, d2, w2));
    WindowShift(y1, y2);
    PackedFields(m1, d1, w1, m2, d2, w2);
  }

  lemma HighAndLow(p: int, f: int, q: int, g: int)
    requires 0 <= f < 4096 && 0 <= g < 4096
    ensures 4096 * p + f == 4096 * q + g <==> p == q && f == g
  {
  }

  lemma WindowShift(y1: int, y2: int)
    ensures Window(y1) == Window(y2) <==> y1 % 0x10_0000 == y2 % 0x10_0000
  {
    WindowOf(y1);
    WindowOf(y2);
  }

  lemma WindowOf(year: int)
    ensures Window(year) == (if year % 0x10_0000 < 0x8_0000 then year % 0x10_0000 else year % 0x10_0000 - 0x10_0000)
  {
  }

  lemma PackedFields(m1: int, d1: int, w1: int, m2: int, d2: int, w2: int)
    requires 1 <= d1 <= 31 && 1 <= w1 <= 7 && 1 <= d2 <= 31 && 1 <= w2 <= 7
    ensures Packed(m1, d1, w1) == Packed(m2, d2, w2) <==> m1 == m2 && d1 == d2 && w1 == w2
  {
  }

  /** Dates less than 2^20 years apart have different keys. */
  lemma KeyInjective(y1: int, m1: int, d1: int, w1: int, y2: int, m2: int, d2: int, w2: int)
    requires IsDate(y1, m1, d1) && IsDate(y2, m2, d2) && 1 <= w1 <= 7 && 1 <= w2 <= 7
    requires -0x10_0000 < y1 - y2 < 0x10_0000
    requires CacheKey(y1, m1, d1, w1) == CacheKey(y2, m2, d2, w2)
    ensures y1 == y2 && m1 == m2 && d1 == d2 && w1 == w2
  {
    KeyCollision(y1, m1, d1, w1, y2, m2, d2, w2);
  }

  /** Two dates share a key and differ in weekday, so a remembered answer can be wrong. */
  lemma CollisionMatters()
    ensures IsDate(2000, 1, 1) && IsDate(1050576, 1, 1)
    ensures CacheKey(2000, 1, 1, 1) == CacheKey(1050576, 1, 1, 1)
    ensures Zeller(2000, 1, 1, 1) == 7 && Zeller(1050576, 1, 1, 1) == 2
  {
    KeyCollision(2000, 1, 1, 1, 1050576, 1, 1, 1);
  }

  /** 29 February 1700 and the day after it get the same weekday. */
  lemma FebruaryMisjudged()
    ensures IsDate(1700, 2, 29) && NextDay(1700, 2, 29) == (1700, 3, 1)
    ensures Zeller(1700, 3, 1, 1) == Zeller(1700, 2, 29, 1)
  {
  }

  /** A date somebody asked for, with the week start. */
  datatype Question = Question(year: int, month: int, day: int, weekStart: int) {
    predicate Proper() {
      IsDate(year, month, day) && 1 <= weekStart <= 7
    }

    function Key(): int {
      CacheKey(year, month, day, weekStart)
    }

    function Weekday(): int {
      Zeller(year, month, day, weekStart)
    }
  }

  /** ICAL.Time._dowCache: weekdays already computed. */
  class WeekdayCache {
    var memo: map<int, int>
    ghost var asked: map<int, Question> // the date first asked under each key

    /** Under each key the memo holds the weekday of the date first asked under it. */
    ghost predicate Valid()
      reads this
    {
      && memo.Keys == asked.Keys
      && forall k :: k in asked ==> asked[k].Proper() && asked[k].Key() == k && memo[k] == asked[k].Weekday()
    }

    constructor ()
      ensures Valid() && memo == map[] && asked == map[]
    {
      memo, asked := map[], map[];
    }

    /**
     * Answers from the memo or by the formula. The answer is right exactly when the date first asked
     * under the key has the same weekday, as it has if it lies within 2^20 years.
     */
    method DayOfWeek(year: int, month: int, day: int, weekStart: int) returns (r: int)
      requires Valid() && IsDate(year, month, day) && 0 <= weekStart <= 7
      modifies this
      ensures Valid()
      ensures var q := Question(year, month, day, if weekStart == 0 then 1 else weekStart);
        && asked == (if q.Key() in old(asked) then old(asked) else old(asked)[q.Key() := q])
        && r == asked[q.Key()].Weekday()
        && (r == q.Weekday() <==> q.Key() in old(asked) ==> old(asked)[q.Key()].Weekday() == q.Weekday())
        && (q.Key() in old(asked) ==>
              -0x10_0000 < old(asked)[q.Key()].year - year < 0x10_0000 ==> r == q.Weekday())
    {
      hide CacheKey, Zeller;
      var n := if weekStart == 0 then 1 else weekStart;
      var key := CacheKey(year, month, day, n);
      ghost var q := Question(year, month, day, n);
      if key in memo {
        ghost var first := asked[key];
        if -0x10_0000 < first.year - year < 0x10_0000 {
          KeyInjective(first.year, first.month, first.day, first.weekStart, year, month, day, n);
        }
        return memo[key];
      }
      r := Zeller(year, month, day, n);
      memo := memo[key := r];
      asked := asked[key := q];
    }
  }

  /** 1 January 1050576 is a Monday; the memo says Saturday once it was asked for 1 January 2000. */
  method RememberedWrongly() returns (r: int)
    ensures IsDate(1050576, 1, 1) && r == 7 && Zeller(1050576, 1, 1, 1) == 2
  {
    CollisionMatters();
    hide CacheKey, Zeller;
    var cache := new WeekdayCache();
    var _ := cache.DayOfWeek(2000, 1, 1, 1);
    r := cache.DayOfWeek(1050576, 1, 1, 1);
  }
}
