/** ICAL.Time for UTC and floating values: lazily normalised calendar fields. */
module CalendarTime {
  import opened CalendarDuration
  import opened CalendarRules
  import opened Weekdays
  import opened Wrappers

  datatype Field = Year | Month | Day | Hour | Minute | Second

  /** The calendar fields as a value; they may lie outside their ranges. */
  datatype Civil = Civil(year: int, month: int, day: int, hour: int, minute: int, second: int) {
    function With(field: Field, v: int): Civil {
      match field
      case Year => this.(year := v)
      case Month => this.(month := v)
      case Day => this.(day := v)
      case Hour => this.(hour := v)
      case Minute => this.(minute := v)
      case Second => this.(second := v)
    }

    function At(field: Field): int {
      match field
      case Year => year
      case Month => month
      case Day => day
      case Hour => hour
      case Minute => minute
      case Second => second
    }

    function DayCount(): int {
      DayNumber(year, month, day)
    }

    function ClockSeconds(): int {
      3600 * hour + 60 * minute + second
    }

    predicate InRange() {
      IsDate(year, month, day) && 0 <= hour < 24 && 0 <= minute < 60 && 0 <= second < 60
    }
  }

  /** Two normalised values at the same instant are the same value. */
  lemma InstantDetermines(a: Civil, b: Civil)
    requires a.InRange() && b.InRange()
    requires 86400 * a.DayCount() + a.ClockSeconds() == 86400 * b.DayCount() + b.ClockSeconds()
    ensures a == b
  {
    hide DayNumber;
    assert a.DayCount() == b.DayCount();
    DayNumberInjective(a.year, a.month, a.day, b.year, b.month, b.day);
  }

  class Time {
    var year: int
    var month: int
    var day: int
    var hour: int
    var minute: int
    var second: int
    var isDate: bool
    var pendingNormalization: bool
    var cachedUnixTime: Option<int>

    // ----- what the fields mean -----

    ghost function Fields(): Civil
      reads this
    {
      Civil(year, month, day, hour, minute, second)
    }

    ghost function DayCount(): int
      reads this
    {
      Fields().DayCount()
    }

    ghost function ClockSeconds(): int
      reads this
    {
      Fields().ClockSeconds()
    }

    /** The instant in seconds. The fields may be out of range; a date has no time of day. */
    ghost function Instant(): int
      reads this
    {
      86400 * DayCount() + (if isDate then 0 else ClockSeconds())
    }

    ghost predicate InRange()
      reads this
    {
      Fields().InRange()
    }

    ghost predicate Normalised()
      reads this
    {
      InRange() && (isDate ==> hour == minute == second == 0)
    }

    /** The Unix time the host clock gives the fields. */
    ghost function HostTime(): int
      reads this
    {
      86400 * (HostDayNumber(year, month, day) - UNIX_EPOCH_DAY) + ClockSeconds()
    }

    ghost predicate Valid()
      reads this
    {
      && (!pendingNormalization ==> Normalised())
      && (cachedUnixTime.Some? ==> Normalised() && !pendingNormalization && cachedUnixTime.value == HostTime())
    }

    constructor ()
      ensures Valid() && !isDate && Fields() == Civil(0, 1, 1, 0, 0, 0) && !pendingNormalization
    {
      year, month, day := 0, 1, 1;
      hour, minute, second := 0, 0, 0;
      isDate := false;
      pendingNormalization := false;
      cachedUnixTime := None;
      new;
      hide HostTime;
      assert IsDate(0, 1, 1);
    }

    /** Normalises on demand, then reads. */
    method Get(field: Field) returns (v: int)
      requires Valid()
      modifies this
      ensures Valid() && !pendingNormalization && Normalised()
      ensures isDate == old(isDate) && Instant() == old(Instant()) && v == Fields().At(field)
      ensures !old(pendingNormalization) ==> unchanged(this)
    {
      if pendingNormalization {
        Normalise();
        pendingNormalization := false;
      }
      v := Civil(year, month, day, hour, minute, second).At(field);
    }

    /** Writes one field and leaves the carry to the next read. */
    method Set(field: Field, v: int)
      modifies this
      ensures Valid() && pendingNormalization
      ensures Fields() == old(Fields()).With(field, v) && isDate == old(isDate)
    {
      cachedUnixTime := None;
      pendingNormalization := true;
      match field
      case Year => year := v;
      case Month => month := v;
      case Day => day := v;
      case Hour => hour := v;
      case Minute => minute := v;
      case Second => second := v;
    }

    /** Becoming a date carries the clock into the day first. */
    method SetIsDate(v: bool)
      modifies this
      ensures Valid() && pendingNormalization && isDate == v
      ensures !(v && !old(isDate)) ==> Fields() == old(Fields())
      ensures v && !old(isDate) ==>
                InRange() && 86400 * DayCount() + ClockSeconds() == old(Instant())
    {
      if v && !isDate {
        Adjust(0, 0, 0, 0);
      }
      cachedUnixTime := None;
      pendingNormalization := true;
      isDate := v;
    }

    method Normalise()
      modifies this
      ensures Normalised() && isDate == old(isDate) && Instant() == old(Instant())
      ensures pendingNormalization == old(pendingNormalization) && cachedUnixTime == None
    {
      if isDate {
        hour, minute, second := 0, 0, 0;
      }
      Adjust(0, 0, 0, 0);
    }

    /**
     * Copies the stored fields one by one through the setters of a new value. The type is set
     * last, so a date whose stored clock is out of range carries it into the day of the copy.
     */
    method Clone() returns (t: Time)
      ensures fresh(t) && t.Valid() && t.isDate == isDate
      ensures !isDate ==> t.Fields() == Fields()
      ensures isDate ==> t.InRange()
      ensures isDate ==> 86400 * t.DayCount() + t.ClockSeconds() == 86400 * DayCount() + ClockSeconds()
      ensures Normalised() ==> t.Fields() == Fields()
    {
      t := new Time();
      t.Set(Year, year);
      t.Set(Month, month);
      t.Set(Day, day);
      t.Set(Hour, hour);
      t.Set(Minute, minute);
      t.Set(Second, second);
      t.SetIsDate(isDate);
      t.SetIsDate(isDate);
      if Normalised() {
        InstantDetermines(t.Fields(), Fields());
      }
    }

    /** Date.UTC over the normalised fields, remembered until a field changes. */
    method ToUnixTime() returns (r: int)
      requires Valid()
      modifies this
      ensures Valid() && Normalised() && !pendingNormalization
      ensures isDate == old(isDate) && Instant() == old(Instant())
      ensures r == HostTime()
      ensures old(Normalised()) ==> Fields() == old(Fields())
    {
      hide DayNumber, HostDayNumber, IsDate, DaysInMonth;
      ghost var before := Fields();
      if cachedUnixTime.Some? {
        return cachedUnixTime.value;
      }
      var y := Get(Year);
      var m := Get(Month);
      var d := Get(Day);
      var h := Get(Hour);
      var min := Get(Minute);
      var s := Get(Second);
      if old(Normalised()) {
        InstantDetermines(before, Fields());
      }
      r := 86400 * (HostDayNumber(y, m, d) - UNIX_EPOCH_DAY) + 3600 * h + 60 * min + s;
      cachedUnixTime := Some(r);
    }

    /** Adds a duration field by field; of a date only whole days and weeks count. */
    method AddDuration(d: Parts)
      requires Valid()
      modifies this
      ensures Valid() && pendingNormalization && isDate == old(isDate)
      ensures !isDate ==> Instant() == old(Instant()) + ToSeconds(d)
      ensures isDate ==> Instant() == old(Instant()) + ToSeconds(d.(hours := 0, minutes := 0, seconds := 0))
    {
      hide DayNumber, ToSeconds, IsDate, HostTime, Valid, Normalised;
      var sign := if d.isNegative then -1 else 1;
      var s := Get(Second);
      var min := Get(Minute);
      var h := Get(Hour);
      var day' := Get(Day);
      s := s + sign * d.seconds;
      min := min + sign * d.minutes;
      h := h + sign * d.hours;
      day' := day' + sign * d.days;
      day' := day' + 7 * sign * d.weeks;
      ghost var at := Fields();
      Set(Second, s);
      Set(Minute, min);
      Set(Hour, h);
      Set(Day, day');
      cachedUnixTime := None;
      AddedInstant(at, d, sign);
    }

    /** The time from `t` to this value on the host clock, both without a zone offset. */
    method SubtractDate(t: Time) returns (d: Duration)
      requires Valid() && t.Valid()
      modifies this, t
      ensures Valid() && t.Valid() && fresh(d)
      ensures isDate == old(isDate) && t.isDate == old(t.isDate)
      ensures Instant() == old(Instant()) && t.Instant() == old(t.Instant())
      ensures Canonical(d.Value()) && Normalised() && t.Normalised()
      ensures old(Normalised()) ==> Fields() == old(Fields())
      ensures old(t.Normalised()) ==> t.Fields() == old(t.Fields())
      ensures ToSeconds(d.Value()) == HostTime() - t.HostTime()
      ensures ToSeconds(d.Value()) == Instant() - t.Instant() - 86400 * (Drift(year, month) - Drift(t.year, t.month))
      ensures Gregorian(Instant()) && Gregorian(t.Instant()) ==> ToSeconds(d.Value()) == Instant() - t.Instant()
    {
      hide DayNumber, HostDayNumber, IsDate, Drift, Gregorian;
      var a := ToUnixTime();
      ghost var mine := Fields();
      var b := t.ToUnixTime();
      assert Fields() == mine;
      HostTimeOf(this);
      HostTimeOf(t);
      d := new Duration(NO_PARTS);
      d.FromSeconds(a - b);
    }

    /** The order of two values on the host clock. */
    method Compare(t: Time) returns (c: int)
      requires Valid() && t.Valid()
      modifies this, t
      ensures Valid() && t.Valid() && !pendingNormalization && !t.pendingNormalization
      ensures isDate == old(isDate) && t.isDate == old(t.isDate)
      ensures Instant() == old(Instant()) && t.Instant() == old(t.Instant())
      ensures old(Normalised()) ==> Fields() == old(Fields())
      ensures old(t.Normalised()) ==> t.Fields() == old(t.Fields())
      ensures c == if HostTime() > t.HostTime() then 1 else if HostTime() < t.HostTime() then -1 else 0
      ensures Gregorian(Instant()) && Gregorian(t.Instant()) ==>
                c == if Instant() > t.Instant() then 1 else if Instant() < t.Instant() then -1 else 0
    {
      var a := ToUnixTime();
      ghost var mine := Fields();
      var b := t.ToUnixTime();
      assert Fields() == mine;
      HostTimeOf(this);
      HostTimeOf(t);
      c := if a > b then 1 else if b > a then -1 else 0;
    }

    /** The ordinal of the day in its year. */
    method DayOfYear() returns (n: int)
      requires Valid()
      modifies this
      ensures Valid() && Normalised() && Instant() == old(Instant()) && isDate == old(isDate)
      ensures 1 <= n <= DaysInYear(year) && DayCount() == YearStart(year) + n
    {
      var y := Get(Year);
      var m := Get(Month);
      var d := Get(Day);
      n := PassedDays(m - 1, y) + d;
      OrdinalInYear(y, m, d);
    }

    /** Normalises, then asks the memo; see WeekdayCache.DayOfWeek. */
    method DayOfWeek(cache: WeekdayCache, weekStart: int) returns (r: int)
      requires Valid() && cache.Valid() && 0 <= weekStart <= 7
      modifies this, cache
      ensures Valid() && Normalised() && Instant() == old(Instant()) && isDate == old(isDate)
      ensures cache.Valid()
      ensures var q := Question(year, month, day, if weekStart == 0 then 1 else weekStart);
        && q.Key() in cache.asked && r == cache.asked[q.Key()].Weekday()
        && (-0x10_0000 < cache.asked[q.Key()].year - year < 0x10_0000 ==> r == q.Weekday())
        && (r == q.Weekday() && year >= 1753 ==> r == (DayCount() + 1 - q.weekStart) % 7 + 1)
    {
      var y := Get(Year);
      var m := Get(Month);
      var d := Get(Day);
      hide CacheKey, Zeller;
      r := cache.DayOfWeek(y, m, d, weekStart);
      if y >= 1753 {
        ZellerCountsDays(y, m, d, if weekStart == 0 then 1 else weekStart);
      }
    }

    /** The n-th day of a year, for any integer n: whole years are stepped over first. */
    static method FromDayOfYear(n: int, y: int) returns (t: Time)
      ensures fresh(t) && t.Valid() && t.isDate && IsDate(t.year, t.month, t.day)
      ensures t.DayCount() == YearStart(y) + n
      ensures 1 <= n <= DaysInYear(y) <==> t.year == y
      decreases n < 1, if n < 1 then -n else n
    {
      hide YearStart, DayNumber, DaysInMonth, PassedDays, DaysInYear;
      t := new Time();
      YearLength(y - 1);
      YearLength(y);
      if n < 1 {
        YearStartStep(y - 1);
        t := FromDayOfYear(n + PassedDays(12, y - 1), y - 1);
      } else if n > PassedDays(12, y) {
        YearStartStep(y);
        t := FromDayOfYear(n - PassedDays(12, y), y + 1);
      } else {
        t.SetOrdinal(n, y);
      }
      WithinYear(y, n, t.year, t.month, t.day);
    }

    /** Finds the month of an ordinal from December down. */
    method SetOrdinal(n: int, y: int)
      requires 1 <= n <= PassedDays(12, y)
      requires !isDate && Fields() == Civil(0, 1, 1, 0, 0, 0)
      modifies this
      ensures Valid() && isDate && IsDate(year, month, day) && DayCount() == YearStart(y) + n
    {
      hide YearStart, DayNumber, DaysInMonth, PassedDays, IsLeapYear, DaysInYear, IsDate, HostTime, Valid, Normalised;
      YearLength(y);
      Set(Year, y);
      SetIsDate(true);
      SetYearIsKept(y, Fields());
      var o := 11;
      while n <= PassedDays(o, y)
        invariant 0 <= o <= 11 && n <= PassedDays(o + 1, y)
        decreases o
      {
        o := o - 1;
      }
      Set(Month, o + 1);
      Set(Day, n - PassedDays(o, y));
      MonthOfOrdinal(y, o + 1, n);
    }

    /**
     * Adds an offset and carries every field into its range. Of a date only the days move.
     * `yearOverflow` and `dayOverflow` are the counters of what is carried into years and days.
     */
    method Adjust(days: int, hours: int, minutes: int, seconds: int)
      modifies this
      ensures isDate == old(isDate) && pendingNormalization == old(pendingNormalization)
      ensures cachedUnixTime == None
      ensures IsDate(year, month, day)
      ensures old(isDate) ==>
                DayCount() == old(DayCount()) + days
                && (hour, minute, second) == old((hour, minute, second))
      ensures !old(isDate) ==>
                InRange() && Instant() == old(Instant()) + 86400 * days + 3600 * hours + 60 * minutes + seconds
    {
      var dayOverflow := 0;
      if !isDate {
        dayOverflow := AdjustClock(hours, minutes, seconds);
      }
      var yearOverflow := 0;
      if month > 12 {
        yearOverflow := Trunc(month - 1, 12);
      } else if month < 1 {
        yearOverflow := Trunc(month, 12) - 1;
      }
      ghost var index := MonthIndex(year, month);
      year := year + yearOverflow;
      month := month - 12 * yearOverflow;
      assert MonthIndex(year, month) == index && 1 <= month <= 12;
      day := WalkMonths(day + days + dayOverflow);
      cachedUnixTime := None;
    }

    /** Carries seconds into minutes, minutes into hours and hours into the days it returns. */
    method AdjustClock(hours: int, minutes: int, seconds: int) returns (dayOverflow: int)
      modifies this`hour, this`minute, this`second
      ensures 0 <= hour < 24 && 0 <= minute < 60 && 0 <= second < 60
      ensures 86400 * dayOverflow + ClockSeconds()
              == old(ClockSeconds()) + 3600 * hours + 60 * minutes + seconds
    {
      var s := second + seconds;
      second := Rem(s, 60);
      var minuteOverflow := Trunc(s, 60);
      if second < 0 {
        second := second + 60;
        minuteOverflow := minuteOverflow - 1;
      }
      var m := minute + minutes + minuteOverflow;
      minute := Rem(m, 60);
      var hourOverflow := Trunc(m, 60);
      if minute < 0 {
        minute := minute + 60;
        hourOverflow := hourOverflow - 1;
      }
      var h := hour + hours + hourOverflow;
      hour := Rem(h, 24);
      dayOverflow := Trunc(h, 24);
      if hour < 0 {
        hour := hour + 24;
        dayOverflow := dayOverflow - 1;
      }
    }

    /** Moves whole months between the day and the month until the day fits its month. */
    method WalkMonths(total: int) returns (rest: int)
      requires 1 <= month <= 12
      modifies this`year, this`month
      ensures IsDate(year, month, rest)
      ensures DayNumber(year, month, rest) == old(DayNumber(year, month, total))
    {
      hide MonthStart;
      rest := total;
      if rest > 0 {
        while rest > DaysInMonth(month, year)
          invariant 1 <= month <= 12 && rest >= 1
          invariant DayNumber(year, month, rest) == old(DayNumber(year, month, total))
          decreases rest
        {
          MonthStartStep(year, month);
          var days := DaysInMonth(month, year);
          month := month + 1;
          if month > 12 {
            year := year + 1;
            month := 1;
          }
          rest := rest - days;
        }
      } else {
        while rest <= 0
          invariant 1 <= month <= 12 && rest <= DaysInMonth(month, year)
          invariant DayNumber(year, month, rest) == old(DayNumber(year, month, total))
          decreases -rest
        {
          if month == 1 {
            year := year - 1;
            month := 12;
          } else {
            month := month - 1;
          }
          MonthStartStep(year, month);
          rest := rest + DaysInMonth(month, year);
        }
      }
    }
  }

  const UNIX_EPOCH_DAY: int := GregorianDayNumber(1970, 1, 1)

  /** Instants from 1 January 1753 on, where the host calendar and ICAL.js agree. */
  ghost predicate Gregorian(instant: int) {
    instant >= 86400 * (YearStart(1753) + 1)
  }

  lemma DayNumberShift(year: int, month: int, day: int, days: int)
    ensures DayNumber(year, month, day + days) == DayNumber(year, month, day) + days
  {
  }

  lemma AddedInstant(at: Civil, d: Parts, sign: int)
    requires sign == if d.isNegative then -1 else 1
    ensures var to := at.(second := at.second + sign * d.seconds, minute := at.minute + sign * d.minutes,
                          hour := at.hour + sign * d.hours, day := at.day + sign * d.days + 7 * sign * d.weeks);
      && 86400 * to.DayCount() + to.ClockSeconds() == 86400 * at.DayCount() + at.ClockSeconds() + ToSeconds(d)
      && 86400 * to.DayCount() == 86400 * at.DayCount() + ToSeconds(d.(hours := 0, minutes := 0, seconds := 0))
  {
    hide DayNumber;
    if d.isNegative {
      DayNumberShift(at.year, at.month, at.day, -(d.days + 7 * d.weeks));
    } else {
      DayNumberShift(at.year, at.month, at.day, d.days + 7 * d.weeks);
    }
  }

  lemma DayOfNormalised(t: Time)
    requires t.Normalised()
    ensures t.Instant() / 86400 == t.DayCount()
  {
    hide DayNumber;
  }

  /** The host clock and the instant differ by the drift, which is constant from 1753 on. */
  lemma HostTimeOf(t: Time)
    requires t.Normalised()
    ensures t.HostTime() == t.Instant() - 86400 * (UNIX_EPOCH_DAY + Drift(t.year, t.month))
    ensures Gregorian(t.Instant()) ==> Drift(t.year, t.month) == 13
    ensures Gregorian(t.Instant()) ==> t.HostTime() == t.Instant() - 86400 * (UNIX_EPOCH_DAY + 13)
  {
    hide DayNumber, HostDayNumber, Drift;
    DriftOfMonth(t.year, t.month, t.day);
    if Gregorian(t.Instant()) {
      DayOfNormalised(t);
      YearFromDayNumber(t.year, t.month, t.day, 1753);
      DriftFrom1753(t.year, t.month);
    }
  }

  /** Only the year was set, so turning the value into a date carries nothing. */
  lemma SetYearIsKept(year: int, c: Civil)
    requires c.InRange()
    requires 86400 * c.DayCount() + c.ClockSeconds() == 86400 * DayNumber(year, 1, 1)
    ensures c == Civil(year, 1, 1, 0, 0, 0)
  {
    InstantDetermines(c, Civil(year, 1, 1, 0, 0, 0));
  }

  lemma YearLength(year: int)
    ensures PassedDays(0, year) == 0 && PassedDays(12, year) == DaysInYear(year) && 365 <= DaysInYear(year) <= 366
  {
  }

  lemma OrdinalInYear(year: int, month: int, day: int)
    requires IsDate(year, month, day)
    ensures 1 <= PassedDays(month - 1, year) + day <= DaysInYear(year)
    ensures DayNumber(year, month, day) == YearStart(year) + PassedDays(month - 1, year) + day
  {
    hide YearStart;
    var i := MonthIndex(year, month);
    assert i / 12 == year && i % 12 == month - 1;
  }

  lemma MonthOfOrdinal(year: int, month: int, n: int)
    requires 1 <= month <= 12 && PassedDays(month - 1, year) < n <= PassedDays(month, year)
    ensures IsDate(year, month, n - PassedDays(month - 1, year))
    ensures DayNumber(year, month, n - PassedDays(month - 1, year)) == YearStart(year) + n
  {
    hide YearStart;
    var i := MonthIndex(year, month);
    assert i / 12 == year && i % 12 == month - 1;
  }

  /** A date that is the n-th day of `y` lies in `y` exactly when n is an ordinal of `y`. */
  lemma WithinYear(y: int, n: int, year: int, month: int, day: int)
    requires IsDate(year, month, day) && DayNumber(year, month, day) == YearStart(y) + n
    ensures 1 <= n <= DaysInYear(y) <==> year == y
    ensures year == y ==> PassedDays(month - 1, year) + day == n
  {
    hide DayNumber, YearStart;
    OrdinalInYear(year, month, day);
    YearFromDayNumber(year, month, day, y);
    YearFromDayNumber(year, month, day, y + 1);
    YearStartStep(y);
  }

  /** The day count of an instant, with the time of day dropped. */
  function DayOf(instant: int): int {
    instant / 86400
  }

  /** The drift of a value is read off its instant. */
  lemma DriftOfInstant(t: Time)
    requires t.Normalised()
    ensures Drift(t.year, t.month) == DriftOnDay(DayOf(t.Instant()))
  {
    hide DayNumber, Drift, DriftOnDay;
    DayOfNormalised(t);
    DriftOnDate(t.year, t.month, t.day);
  }

  /** Instants from 1 January 100 on, where Date.UTC reads years as they are. */
  ghost predicate FromYear100(instant: int) {
    instant >= 86400 * (YearStart(100) + 1)
  }

  lemma DayFromYear100(instant: int)
    requires FromYear100(instant)
    ensures DayOf(instant) > YearStart(100)
  {
    hide YearStart;
  }

  lemma DaysLater(instant: int, n: int)
    ensures DayOf(instant + 86400 * n) == DayOf(instant) + n
  {
  }

  lemma HostTimeOfInstant(t: Time)
    requires t.Normalised()
    ensures t.HostTime() == t.Instant() - 86400 * (UNIX_EPOCH_DAY + DriftOnDay(DayOf(t.Instant())))
  {
    hide *;
    HostTimeOf(t);
    DriftOfInstant(t);
  }

  /** Whole days apart, the host clock orders two values, and gives one time only to a repeated day and the next. */
  lemma DaysApart(a: Time, b: Time, n: nat)
    requires a.Normalised() && b.Normalised() && FromYear100(b.Instant())
    requires a.Instant() == b.Instant() + 86400 * n
    ensures a.HostTime() >= b.HostTime()
    ensures a.HostTime() == b.HostTime() <==> n == 0 || (n == 1 && IsRepeatedDay(DayOf(b.Instant())))
  {
    hide *;
    HostTimeOfInstant(a);
    HostTimeOfInstant(b);
    DayFromYear100(b.Instant());
    DaysLater(b.Instant(), n);
    HostOrder(DayOf(b.Instant()), n);
  }

  /** The time of day of a duration, which a date drops when it is added. */
  function ClockPart(d: Parts): int {
    ToSeconds(d) - ToSeconds(d.(hours := 0, minutes := 0, seconds := 0))
  }

  /**
   * What a value gains beside the duration when it is copied and the duration added: a date gains
   * the days its stored clock carries into the copy and drops the time of day of the duration.
   */
  function Gained(isDate: bool, clock: int, d: Parts): int {
    if isDate then 86400 * DayOf(clock) - ClockPart(d) else 0
  }

  /** With the clock in range nothing is gained exactly by non-dates and durations without a time of day. */
  lemma NothingGained(isDate: bool, clock: int, d: Parts)
    requires 0 <= clock < 86400
    ensures Gained(isDate, clock, d) == 0 <==> !isDate || 3600 * d.hours + 60 * d.minutes + d.seconds == 0
  {
  }

  /**
   * Adding a duration to a copy and taking the difference gives the duration back exactly when what
   * is gained beside it is the change of drift between the two day counts: from 1753 on exactly
   * when nothing is gained. All of it is known before the call.
   */
  method ElapsedAfterAdding(t: Time, d: Parts) returns (elapsed: Duration, later: Time)
    requires t.Valid()
    modifies t
    ensures later.Normalised() && t.Normalised() && t.isDate == old(t.isDate) && t.Instant() == old(t.Instant())
    ensures old(t.Normalised()) ==> t.Fields() == old(t.Fields())
    ensures var from, gained := old(t.Instant()), Gained(old(t.isDate), old(t.ClockSeconds()), d);
      var to := from + ToSeconds(d) + gained;
      && later.Instant() == to
      && (ToSeconds(elapsed.Value()) == ToSeconds(d)
          <==> gained == 86400 * (DriftOnDay(DayOf(to)) - DriftOnDay(DayOf(from))))
      && (Gregorian(from) && Gregorian(to) ==> ToSeconds(elapsed.Value()) == ToSeconds(d) + gained)
  {
    hide *;
    ghost var from, clock := t.Instant(), t.ClockSeconds();
    later := t.Clone();
    ghost var copied := later.Instant();
    SumWithDuration(t, later, d);
    later.AddDuration(d);
    ghost var to := later.Instant();
    assert to == from + ToSeconds(d) + Gained(t.isDate, clock, d);
    elapsed := later.SubtractDate(t);
    DriftOfInstant(t);
    DriftOfInstant(later);
  }

  lemma SumWithDuration(t: Time, copy: Time, d: Parts)
    requires copy.isDate == t.isDate && (!t.isDate ==> copy.Fields() == t.Fields()) && (t.isDate ==> copy.InRange())
    requires t.isDate ==> 86400 * copy.DayCount() + copy.ClockSeconds() == 86400 * t.DayCount() + t.ClockSeconds()
    ensures var added := if t.isDate then ToSeconds(d.(hours := 0, minutes := 0, seconds := 0)) else ToSeconds(d);
      copy.Instant() + added == t.Instant() + ToSeconds(d) + Gained(t.isDate, t.ClockSeconds(), d)
  {
    hide DayNumber;
    if t.isDate {
      CopiedDate(t, copy);
    }
  }

  /** A date with a stored clock is copied to the day its clock carries it to. */
  lemma CopiedDate(t: Time, copy: Time)
    requires t.isDate && copy.isDate && copy.InRange()
    requires 86400 * copy.DayCount() + copy.ClockSeconds() == 86400 * t.DayCount() + t.ClockSeconds()
    ensures copy.Instant() == t.Instant() + 86400 * DayOf(t.ClockSeconds())
  {
    hide DayNumber;
  }

  lemma OnlyHours(d: Parts)
    requires !d.isNegative && d.weeks == d.days == d.minutes == d.seconds == 0
    ensures ToSeconds(d) == 3600 * d.hours && ClockPart(d) == 3600 * d.hours
  {
  }

  lemma GainedByDate(d: Parts)
    ensures Gained(true, 0, d) == -ClockPart(d)
  {
    hide ClockPart;
    assert DayOf(0) == 0;
  }

  lemma Starts2024()
    ensures Gregorian(86400 * (YearStart(2024) + 1))
  {
  }

  /** An hour added to a date is lost. */
  method HourAddedToDate() returns (elapsed: Duration)
    ensures ToSeconds(elapsed.Value()) == 0
  {
    hide DayNumber, Drift, IsDate, IsLeapYear, DriftOnDay, ClockPart, ToSeconds, DayOf, Gained, YearStart, Gregorian;
    var t := Time.FromDayOfYear(1, 2024);
    Starts2024();
    var _ := t.Get(Day);
    var hour := Parts(0, 0, 1, 0, 0, false);
    OnlyHours(hour);
    GainedByDate(hour);
    var later;
    elapsed, later := ElapsedAfterAdding(t, hour);
  }
}
