/** The calendar of ICAL.js: its leap rule, its month lengths, and the count of days they induce. */
module CalendarRules {

  /** The rule of the host's calendar, for all years. */
  predicate IsGregorianLeapYear(year: int) {
    (year % 4 == 0 && year % 100 != 0) || year % 400 == 0
  }

  /** The Julian rule up to 1752, the Gregorian rule afterwards. */
  predicate IsLeapYear(year: int) {
    if year <= 1752 then year % 4 == 0
    else IsGregorianLeapYear(year)
  }

  /** A month outside 1..12 is given 30 days. */
  function DaysInMonth(month: int, year: int): (days: int)
    ensures 28 <= days <= 31
  {
    if month < 1 || month > 12 then 30
    else if month == 2 then (if IsLeapYear(year) then 29 else 28)
    else if month == 4 || month == 6 || month == 9 || month == 11 then 30
    else 31
  }

  function DaysInYear(year: int): int {
    if IsLeapYear(year) then 366 else 365
  }

  /** Math.trunc(a / b): division towards zero. */
  function Trunc(a: int, b: int): int
    requires b > 0
  {
    if a < 0 then -((-a) / b) else a / b
  }

  /** The remainder operator of JavaScript: it takes the sign of the dividend. */
  function Rem(a: int, b: int): int
    requires b > 0
  {
    a - b * Trunc(a, b)
  }

  /** Days of the year before the given month starts, as ICAL.js tabulates them. */
  function PassedDays(month: int, year: int): int
    requires 0 <= month <= 12
  {
    if IsLeapYear(year) then [0, 31, 60, 91, 121, 152, 182, 213, 244, 274, 305, 335, 366][month]
    else [0, 31, 59, 90, 120, 151, 181, 212, 243, 273, 304, 334, 365][month]
  }

  // ----- counting days -----

  /** Days between 1 January of year 0 and 1 January of `year`; negative before year 0. */
  function YearStart(year: int): int {
    365 * year + (if year <= 1753 then (year - 1) / 4 else GregorianLeapDays(year - 1) + 13)
  }

  /** The months of all years on one line: month 1 of `year` is 12 * year. */
  function MonthIndex(year: int, month: int): int {
    12 * year + month - 1
  }

  /** The day count at which a month starts; any integer is a month index. */
  function MonthStart(index: int): int {
    YearStart(index / 12) + PassedDays(index % 12, index / 12)
  }

  /** The day count of a date whose month and day may lie outside their ranges. */
  function DayNumber(year: int, month: int, day: int): int {
    MonthStart(MonthIndex(year, month)) + day
  }

  predicate IsDate(year: int, month: int, day: int) {
    1 <= month <= 12 && 1 <= day <= DaysInMonth(month, year)
  }

  /** The leap days of the host's calendar up to a year. */
  function GregorianLeapDays(year: int): int {
    year / 4 - year / 100 + year / 400
  }

  lemma CenturiesOf(year: int)
    ensures year / 100 == (year - 1) / 100 + (if year % 100 == 0 then 1 else 0)
    ensures year % 400 == 0 ==> year % 100 == 0
    ensures year % 100 == 0 ==> year % 4 == 0
  {
  }

  lemma GregorianLeapDay(year: int)
    ensures GregorianLeapDays(year) == GregorianLeapDays(year - 1) + (if IsGregorianLeapYear(year) then 1 else 0)
  {
    CenturiesOf(year);
    assert year / 4 == (year - 1) / 4 + (if year % 4 == 0 then 1 else 0);
    assert year / 400 == (year - 1) / 400 + (if year % 400 == 0 then 1 else 0);
  }

  /** The closed form of YearStart counts the days of every year, one year after the other. */
  lemma YearStartStep(year: int)
    ensures YearStart(year + 1) == YearStart(year) + DaysInYear(year)
  {
    if year <= 1752 {
      assert year / 4 == (year - 1) / 4 + (if year % 4 == 0 then 1 else 0);
    } else {
      LaterYearStart(year);
    }
  }

  lemma LaterYearStart(year: int)
    requires year >= 1753
    ensures YearStart(year + 1) == YearStart(year) + DaysInYear(year)
  {
    assert YearStart(year) == 365 * year + GregorianLeapDays(year - 1) + 13;
    assert YearStart(year + 1) == 365 * (year + 1) + GregorianLeapDays(year) + 13;
    hide YearStart, GregorianLeapDays, IsGregorianLeapYear;
    GregorianLeapDay(year);
  }

  /** MonthStart counts the days of every month, one month after the other. */
  lemma MonthStartStep(year: int, month: int)
    requires 1 <= month <= 12
    ensures MonthStart(MonthIndex(year, month) + 1) == MonthStart(MonthIndex(year, month)) + DaysInMonth(month, year)
  {
    hide YearStart;
    var i := MonthIndex(year, month);
    assert i / 12 == year && i % 12 == month - 1;
    if month == 12 {
      assert (i + 1) / 12 == year + 1 && (i + 1) % 12 == 0;
      YearStartStep(year);
    } else {
      assert (i + 1) / 12 == year && (i + 1) % 12 == month;
    }
  }

  lemma {:induction false} MonthStartIncreases(i: int, j: int)
    requires i < j
    ensures MonthStart(i) + DaysInMonth(i % 12 + 1, i / 12) <= MonthStart(j)
    decreases j - i
  {
    hide MonthStart;
    assert MonthIndex(i / 12, i % 12 + 1) == i;
    MonthStartStep(i / 12, i % 12 + 1);
    if i + 1 < j {
      MonthStartIncreases(i + 1, j);
    }
  }

  /** A day count names at most one date. */
  lemma DayNumberInjective(y1: int, m1: int, d1: int, y2: int, m2: int, d2: int)
    requires IsDate(y1, m1, d1) && IsDate(y2, m2, d2)
    requires DayNumber(y1, m1, d1) == DayNumber(y2, m2, d2)
    ensures y1 == y2 && m1 == m2 && d1 == d2
  {
    var i, j := MonthIndex(y1, m1), MonthIndex(y2, m2);
    assert i / 12 == y1 && i % 12 == m1 - 1 && j / 12 == y2 && j % 12 == m2 - 1;
    if i < j {
      MonthStartIncreases(i, j);
    } else if j < i {
      MonthStartIncreases(j, i);
    }
  }

  /** Day counts order dates as the calendar does. */
  lemma DayNumberOrder(y1: int, m1: int, d1: int, y2: int, m2: int, d2: int)
    requires IsDate(y1, m1, d1) && IsDate(y2, m2, d2)
    ensures DayNumber(y1, m1, d1) < DayNumber(y2, m2, d2) <==>
            y1 < y2 || (y1 == y2 && (m1 < m2 || (m1 == m2 && d1 < d2)))
  {
    var i, j := MonthIndex(y1, m1), MonthIndex(y2, m2);
    assert i / 12 == y1 && i % 12 == m1 - 1 && j / 12 == y2 && j % 12 == m2 - 1;
    if i < j {
      MonthStartIncreases(i, j);
    } else if j < i {
      MonthStartIncreases(j, i);
    }
  }

  // ----- the clock of the host -----

  /** The day count of the proleptic Gregorian calendar. */
  function GregorianDayNumber(year: int, month: int, day: int): int {
    var index := MonthIndex(year, month);
    var y := index / 12;
    365 * y + GregorianLeapDays(y - 1)
    + (if IsGregorianLeapYear(y) then [0, 31, 60, 91, 121, 152, 182, 213, 244, 274, 305, 335]
       else [0, 31, 59, 90, 120, 151, 181, 212, 243, 273, 304, 334])[index % 12]
    + day
  }

  /** The two calendars agree from 1753 on, up to the thirteen days the Julian years added. */
  lemma GregorianFrom1753(year: int, month: int, day: int)
    requires year >= 1753 && 1 <= month <= 12
    ensures DayNumber(year, month, day) == GregorianDayNumber(year, month, day) + 13
  {
    var i := MonthIndex(year, month);
    assert i / 12 == year && i % 12 == month - 1;
  }

  /** Date.UTC reads the years 0 to 99 as 1900 to 1999. */
  function HostYear(year: int): int {
    if 0 <= year <= 99 then 1900 + year else year
  }

  /** The day count Date.UTC gives to a date. */
  function HostDayNumber(year: int, month: int, day: int): int {
    GregorianDayNumber(HostYear(year), month, day)
  }

  /** Days by which the count of the code is ahead of the host's in a month. */
  function Drift(year: int, month: int): int {
    DayNumber(year, month, 1) - HostDayNumber(year, month, 1)
  }

  /** The drift is the same for all days of a month, and grows with each leap day only the Julian rule has. */
  lemma DriftOfMonth(year: int, month: int, day: int)
    requires 1 <= month <= 12
    ensures DayNumber(year, month, day) == HostDayNumber(year, month, day) + Drift(year, month)
    ensures var y := if month > 2 then year else year - 1;
      !(0 <= year <= 99) ==> Drift(year, month) == ExtraLeapDays(y)
  {
    hide IsLeapYear;
    var i, j := MonthIndex(year, month), MonthIndex(HostYear(year), month);
    assert i / 12 == year && i % 12 == month - 1 && j / 12 == HostYear(year) && j % 12 == month - 1;
    if !(0 <= year <= 99) {
      JulianDrift(year, month);
    }
  }

  /** Days before a month in a year without a leap day. */
  function CommonDays(month: int): int
    requires 1 <= month <= 12
  {
    [0, 31, 59, 90, 120, 151, 181, 212, 243, 273, 304, 334][month - 1]
  }

  lemma DaysBefore(year: int, month: int, day: int)
    requires 1 <= month <= 12
    ensures DayNumber(year, month, day)
            == YearStart(year) + CommonDays(month) + (if month > 2 && IsLeapYear(year) then 1 else 0) + day
  {
    hide YearStart, IsLeapYear;
    var i := MonthIndex(year, month);
    assert i / 12 == year && i % 12 == month - 1;
  }

  lemma GregorianDaysBefore(year: int, month: int, day: int)
    requires 1 <= month <= 12
    ensures GregorianDayNumber(year, month, day)
            == 365 * year + GregorianLeapDays(year - 1) + CommonDays(month)
               + (if month > 2 && IsGregorianLeapYear(year) then 1 else 0) + day
  {
    var i := MonthIndex(year, month);
    assert i / 12 == year && i % 12 == month - 1;
  }

  /** Leap days of the Julian rule only, up to a year. */
  function ExtraLeapDays(year: int): int {
    if year >= 1753 then 13 else year / 100 - year / 400
  }

  lemma ExtraLeapDay(year: int)
    ensures ExtraLeapDays(year) == ExtraLeapDays(year - 1)
      + (if IsLeapYear(year) && !IsGregorianLeapYear(year) then 1 else 0)
    ensures IsGregorianLeapYear(year) ==> IsLeapYear(year)
  {
    CenturiesOf(year);
    assert year / 400 == (year - 1) / 400 + (if year % 400 == 0 then 1 else 0);
  }

  lemma YearStartDrift(year: int)
    ensures YearStart(year) == 365 * year + GregorianLeapDays(year - 1) + ExtraLeapDays(year - 1)
  {
  }

  lemma JulianDrift(year: int, month: int)
    requires 1 <= month <= 12
    ensures DayNumber(year, month, 1) - GregorianDayNumber(year, month, 1)
            == ExtraLeapDays(if month > 2 then year else year - 1)
  {
    hide *;
    DaysBefore(year, month, 1);
    GregorianDaysBefore(year, month, 1);
    YearStartDrift(year);
    ExtraLeapDay(year);
  }

  /** The host gives 29 February 1700, which only the Julian rule has, the day of 1 March. */
  lemma HostRepeatsDay()
    ensures IsDate(1700, 2, 29) && HostDayNumber(1700, 2, 29) == HostDayNumber(1700, 3, 1)
    ensures DayNumber(1700, 3, 1) == DayNumber(1700, 2, 29) + 1
  {
    hide DayNumber, GregorianDayNumber;
    DaysBefore(1700, 2, 29);
    DaysBefore(1700, 3, 1);
    GregorianDaysBefore(1700, 2, 29);
    GregorianDaysBefore(1700, 3, 1);
  }

  lemma NextMonth(index: int)
    ensures MonthStart(index) + 28 <= MonthStart(index + 1) <= MonthStart(index) + 31
  {
    hide MonthStart;
    assert MonthIndex(index / 12, index % 12 + 1) == index;
    MonthStartStep(index / 12, index % 12 + 1);
  }

  /** The index of the month a day count lies in, found from any month by walking back or on. */
  function MonthOfDay(day: int, index: int): (i: int)
    ensures MonthStart(i) < day <= MonthStart(i + 1)
    decreases if day > MonthStart(index) then day - MonthStart(index) else MonthStart(index) - day + 32
  {
    hide MonthStart;
    NextMonth(index - 1);
    NextMonth(index);
    if day <= MonthStart(index) then MonthOfDay(day, index - 1)
    else if day > MonthStart(index + 1) then MonthOfDay(day, index + 1)
    else index
  }

  function YearOfDay(day: int): int {
    MonthOfDay(day, 0) / 12
  }

  /** Days by which the count of the code is ahead of the host's on a day count. */
  function DriftOnDay(day: int): int {
    var i := MonthOfDay(day, 0);
    Drift(i / 12, i % 12 + 1)
  }

  /** The drift on a day count is that of the month its date lies in, wherever the walk starts. */
  lemma DriftOnDate(year: int, month: int, day: int)
    requires IsDate(year, month, day)
    ensures forall index :: MonthOfDay(DayNumber(year, month, day), index) == MonthIndex(year, month)
    ensures DriftOnDay(DayNumber(year, month, day)) == Drift(year, month)
  {
    hide MonthStart, Drift;
    var n, i := DayNumber(year, month, day), MonthIndex(year, month);
    assert i / 12 == year && i % 12 + 1 == month;
    forall index ensures MonthOfDay(n, index) == i {
      var j := MonthOfDay(n, index);
      MonthStartStep(year, month);
      if i < j {
        MonthStartIncreases(i, j);
      } else if j < i {
        MonthStartIncreases(j, i);
        NextMonth(j);
        MonthOrder(j + 1, i);
      }
    }
  }

  lemma MonthOrder(i: int, j: int)
    requires i <= j
    ensures MonthStart(i) <= MonthStart(j)
  {
    hide MonthStart, DaysInMonth;
    if i < j {
      MonthStartIncreases(i, j);
      assert DaysInMonth(i % 12 + 1, i / 12) >= 28;
    }
  }

  // ----- days the host counts twice -----

  /** A 29 February only the Julian rule has: the host gives it the day of 1 March. */
  predicate IsRepeatedDay(day: int) {
    var i := MonthOfDay(day, 0);
    i % 12 == 1 && day == MonthStart(i) + 29 && !IsGregorianLeapYear(i / 12)
  }

  lemma RepeatedDate(year: int, month: int, day: int)
    requires IsDate(year, month, day)
    ensures IsRepeatedDay(DayNumber(year, month, day)) <==> month == 2 && day == 29 && !IsGregorianLeapYear(year)
  {
    hide MonthStart, MonthOfDay, IsGregorianLeapYear;
    DriftOnDate(year, month, day);
    var i := MonthIndex(year, month);
    assert i / 12 == year && i % 12 == month - 1;
  }

  /** Every day count is that of a date. */
  lemma DateOfDay(day: int) returns (year: int, month: int, d: int)
    ensures IsDate(year, month, d) && DayNumber(year, month, d) == day
  {
    hide MonthStart, MonthOfDay;
    var i := MonthOfDay(day, 0);
    year, month, d := i / 12, i % 12 + 1, day - MonthStart(i);
    assert MonthIndex(year, month) == i;
    MonthStartStep(year, month);
  }

  /** From 1 January 100 on the drift grows by one behind a repeated day and never otherwise. */
  lemma DriftStep(day: int)
    requires day > YearStart(100)
    ensures DriftOnDay(day + 1) == DriftOnDay(day) + (if IsRepeatedDay(day) then 1 else 0)
    ensures IsRepeatedDay(day) ==> !IsRepeatedDay(day + 1)
  {
    hide DayNumber, MonthOfDay, DriftOnDay, Drift, YearStart, IsRepeatedDay, IsGregorianLeapYear, DaysInMonth;
    var year, month, d := DateOfDay(day);
    YearFromDayNumber(year, month, d, 100);
    DriftOnDate(year, month, d);
    RepeatedDate(year, month, d);
    if d < DaysInMonth(month, year) {
      SameMonth(year, month, d);
      DriftOnDate(year, month, d + 1);
      RepeatedDate(year, month, d + 1);
    } else {
      var y, m := if month == 12 then year + 1 else year, if month == 12 then 1 else month + 1;
      FirstOfNext(year, month, y, m);
      DriftOnDate(y, m, 1);
      RepeatedDate(y, m, 1);
      DriftOfNextMonth(year, month, y, m);
    }
  }

  lemma SameMonth(year: int, month: int, day: int)
    requires 1 <= month <= 12 && day < DaysInMonth(month, year)
    ensures DayNumber(year, month, day + 1) == DayNumber(year, month, day) + 1
    ensures month == 2 ==> day != 29
  {
  }

  lemma FirstOfNext(year: int, month: int, y: int, m: int)
    requires 1 <= month <= 12
    requires if month == 12 then y == year + 1 && m == 1 else y == year && m == month + 1
    ensures IsDate(y, m, 1) && DayNumber(y, m, 1) == DayNumber(year, month, DaysInMonth(month, year)) + 1
  {
    hide MonthStart;
    MonthStartStep(year, month);
    assert MonthIndex(y, m) == MonthIndex(year, month) + 1;
  }

  lemma LeapFebruary(year: int)
    ensures DaysInMonth(2, year) == 29 <==> IsLeapYear(year)
  {
  }

  lemma DriftOfNextMonth(year: int, month: int, y: int, m: int)
    requires year >= 100 && 1 <= month <= 12
    requires if month == 12 then y == year + 1 && m == 1 else y == year && m == month + 1
    ensures Drift(y, m) == Drift(year, month)
      + (if month == 2 && DaysInMonth(2, year) == 29 && !IsGregorianLeapYear(year) then 1 else 0)
  {
    hide *;
    LeapFebruary(year);
    DriftOfMonth(year, month, 1);
    DriftOfMonth(y, m, 1);
    ExtraLeapDay(year);
  }

  /** From 1 January 100 on the host puts days in order; only a repeated day shares one with the next. */
  lemma {:induction false} HostOrder(day: int, n: nat)
    requires day > YearStart(100)
    ensures DriftOnDay(day + n) <= DriftOnDay(day) + n
    ensures DriftOnDay(day + n) == DriftOnDay(day) + n <==> n == 0 || (n == 1 && IsRepeatedDay(day))
    decreases n
  {
    hide DriftOnDay, IsRepeatedDay, YearStart;
    if n > 0 {
      HostOrder(day, n - 1);
      DriftStep(day + n - 1);
      if n == 2 {
        DriftStep(day);
      }
    }
  }

  /** From 1753 on no day is repeated. */
  lemma RepeatedBefore1753(day: int)
    requires day > YearStart(1753)
    ensures !IsRepeatedDay(day)
  {
    hide DayNumber, IsRepeatedDay, YearStart;
    var year, month, d := DateOfDay(day);
    YearFromDayNumber(year, month, d, 1753);
    RepeatedDate(year, month, d);
  }

  lemma DriftFrom1753(year: int, month: int)
    requires year >= 1753 && 1 <= month <= 12
    ensures Drift(year, month) == 13
  {
    hide DayNumber, GregorianDayNumber;
    GregorianFrom1753(year, month, 1);
  }

  lemma YearFromDayNumber(year: int, month: int, day: int, bound: int)
    requires IsDate(year, month, day)
    ensures year >= bound <==> DayNumber(year, month, day) > YearStart(bound)
  {
    var i, j := MonthIndex(year, month), 12 * bound;
    assert i / 12 == year && i % 12 == month - 1 && j / 12 == bound && j % 12 == 0;
    if i < j {
      MonthStartIncreases(i, j);
    } else if j < i {
      MonthStartIncreases(j, i);
    }
  }
}
