/**
 * ICAL.RecurIterator for FREQ=DAILY and FREQ=WEEKLY with an INTERVAL and no BY parts, COUNT or
 * UNTIL (section 3.3.10 of RFC 5545).
 */
module Recurrence {
  import opened CalendarRules
  import opened CalendarTime
  import opened Weekdays

  datatype Frequency = Secondly | Minutely | Hourly | Daily | Weekly | Monthly

  datatype Part = BySecond | ByMinute | ByHour | ByDay | ByMonthDay | ByMonth

  datatype Treatment = Contract | Expand | Illegal

  /** The rows of _expandMap for the two frequencies. */
  function Treat(freq: Frequency, part: Part): Treatment {
    if part == BySecond || part == ByMinute || part == ByHour then Expand
    else if freq == Weekly && part == ByDay then Expand
    else if freq == Weekly && part == ByMonthDay then Illegal
    else Contract
  }

  datatype Rule = Rule(freq: Frequency, interval: int)

  predicate Modelled(rule: Rule) {
    (rule.freq == Daily || rule.freq == Weekly) && rule.interval >= 1
  }

  /** Days from one occurrence to the next. */
  function StepDays(rule: Rule): int {
    if rule.freq == Weekly then 7 * rule.interval else rule.interval
  }

  function FieldOf(part: Part): Field
    requires part == BySecond || part == ByMinute || part == ByHour
  {
    if part == BySecond then Second else if part == ByMinute then Minute else Hour
  }

  class RecurIterator {
    const rule: Rule
    const dtstart: Time
    var last: Time
    var occurrenceNumber: nat
    var byData: map<Part, seq<int>>
    var byIndices: map<Part, nat>

    /** The parts `init` filled in hold exactly the clock of DTSTART. */
    ghost predicate DefaultsHold()
      reads this, dtstart
    {
      && BySecond in byData && byData[BySecond] == [dtstart.second]
      && ByMinute in byData && byData[ByMinute] == [dtstart.minute]
      && ByHour in byData && byData[ByHour] == [dtstart.hour]
      && byIndices == map[BySecond := 0, ByMinute := 0, ByHour := 0]
      && (forall p :: p in byData ==> Treat(rule.freq, p) != Contract)
    }

    /** The iterator stands k intervals behind DTSTART. */
    ghost predicate StandsAt(k: nat)
      reads this, dtstart, last
    {
      && Modelled(rule) && last != dtstart
      && dtstart.Valid() && dtstart.Normalised() && FromYear100(dtstart.Instant())
      && last.Valid() && last.Normalised() && last.isDate == dtstart.isDate
      && DefaultsHold()
      && last.Instant() == dtstart.Instant() + 86400 * (StepDays(rule) * k)
    }

    ghost predicate Valid()
      reads this, dtstart, last
    {
      StandsAt(Passed())
    }

    /** Steps already made; the first value costs none. */
    ghost function Passed(): nat
      reads this
    {
      if occurrenceNumber == 0 then 0 else occurrenceNumber - 1
    }

    /** A daily iterator stands on a day whose successor has the same time on the host clock. */
    ghost predicate RepeatsNext()
      reads this, last
    {
      occurrenceNumber > 0 && StepDays(rule) == 1 && IsRepeatedDay(DayOf(last.Instant()))
    }

    /**
     * `init`: copies DTSTART and fills in its clock as the default BY parts. All fields of the copy
     * but the year are written again, so the copy is DTSTART exactly when its year is.
     */
    constructor (rule: Rule, dtstart: Time)
      requires Modelled(rule) && dtstart.Valid()
      modifies dtstart
      ensures fresh(last) && occurrenceNumber == 0 && this.rule == rule && this.dtstart == dtstart
      ensures dtstart.Normalised() && dtstart.Instant() == old(dtstart.Instant()) && dtstart.isDate == old(dtstart.isDate)
      ensures last.Fields() == dtstart.Fields().(year := old(CopiedYear(dtstart)))
      ensures Valid() <==>
              FromYear100(old(dtstart.Instant())) && old(CopiedYear(dtstart)) == YearOfDay(DayOf(old(dtstart.Instant())))
      ensures FromYear100(old(dtstart.Instant())) && old(dtstart.Normalised()) ==> Valid()
    {
      this.rule := rule;
      this.dtstart := dtstart;
      byData := map[];
      byIndices := map[BySecond := 0, ByMinute := 0, ByHour := 0];
      occurrenceNumber := 0;
      var copy := dtstart.Clone();
      this.last := copy;
      new;
      hide *;
      YearOfCopy(dtstart, last);
      if dtstart.Normalised() {
        YearOfNormalised(dtstart);
      }
      Init();
      YearOfNormalised(dtstart);
      StartsOnStart(this);
    }

    /** Fills in the clock of DTSTART, part by part, and writes it to the copy again. */
    method Init()
      requires Modelled(rule) && last != dtstart && occurrenceNumber == 0 && dtstart.Valid()
      requires byData == map[] && byIndices == map[BySecond := 0, ByMinute := 0, ByHour := 0]
      modifies this`byData, dtstart, last
      ensures DefaultsHold()
      ensures dtstart.Valid() && dtstart.Normalised()
      ensures dtstart.Instant() == old(dtstart.Instant()) && dtstart.isDate == old(dtstart.isDate)
      ensures last.Valid() && last.isDate == old(last.isDate)
      ensures last.Fields() == dtstart.Fields().(year := old(last.year))
    {
      hide DayNumber, IsDate, Time.HostTime, Zeller;
      InitClock();
      InitDate();
    }

    method InitDate()
      requires Modelled(rule) && last != dtstart && DefaultsHold()
      requires ByMonthDay !in byData && ByMonth !in byData
      requires dtstart.Valid() && !dtstart.pendingNormalization
      modifies this`byData, dtstart, last
      ensures DefaultsHold() && dtstart.Valid() && last.Valid() && last.isDate == old(last.isDate)
      ensures !dtstart.pendingNormalization
      ensures dtstart.Fields() == old(dtstart.Fields()) && dtstart.isDate == old(dtstart.isDate)
      ensures last.Fields() == old(last.Fields()).(day := dtstart.day, month := dtstart.month)
    {
      hide DayNumber, IsDate, Time.HostTime, Zeller, Time.Instant;
      var v := dtstart.Get(Day);
      WriteDefault(ByMonthDay, Daily, Day, v);
      v := dtstart.Get(Month);
      WriteDefault(ByMonth, Monthly, Month, v);
      if rule.freq == Weekly {
        byData := byData[ByDay := [Zeller(dtstart.year, dtstart.month, dtstart.day, 1)]];
      }
    }

    method InitClock()
      requires Modelled(rule) && last != dtstart && byData == map[] && dtstart.Valid()
      modifies this`byData, dtstart, last
      ensures byData == map[BySecond := [dtstart.second], ByMinute := [dtstart.minute], ByHour := [dtstart.hour]]
      ensures dtstart.Valid() && !dtstart.pendingNormalization && last.Valid() && last.isDate == old(last.isDate)
      ensures dtstart.Instant() == old(dtstart.Instant()) && dtstart.isDate == old(dtstart.isDate)
      ensures last.Fields() == old(last.Fields()).(hour := dtstart.hour, minute := dtstart.minute, second := dtstart.second)
    {
      hide DayNumber, IsDate, Time.HostTime, Time.Instant;
      var v := dtstart.Get(Second);
      WriteDefault(BySecond, Secondly, Second, v);
      v := dtstart.Get(Minute);
      WriteDefault(ByMinute, Minutely, Minute, v);
      v := dtstart.Get(Hour);
      WriteDefault(ByHour, Hourly, Hour, v);
    }

    /** this.last.<field> = this.setup_defaults(part, unit, start) */
    method WriteDefault(part: Part, unit: Frequency, field: Field, start: int)
      requires part !in byData
      modifies this`byData, last
      ensures byData == if Treat(rule.freq, part) != Contract then old(byData)[part := [start]] else old(byData)
      ensures last.Valid() && last.Fields() == old(last.Fields()).With(field, start) && last.isDate == old(last.isDate)
    {
      var v := SetupDefaults(part, unit, start);
      last.Set(field, v);
    }

    /** The default of a part: recorded when the frequency expands it, and returned. */
    method SetupDefaults(part: Part, unit: Frequency, start: int) returns (v: int)
      requires part !in byData
      modifies this`byData
      ensures v == start
      ensures byData == if Treat(rule.freq, part) != Contract then old(byData)[part := [start]] else old(byData)
    {
      v := start;
      if Treat(rule.freq, part) != Contract {
        if part !in byData {
          byData := byData[part := [start]];
        }
        if rule.freq != unit {
          v := byData[part][0];
        }
      }
    }

    /**
     * next_second, next_minute and next_hour: steps the smaller unit first and, when that
     * wrapped, moves to the next listed value; 1 when the list wrapped as well.
     */
    method NextGeneric(part: Part) returns (wrapped: int)
      requires Modelled(rule) && last != dtstart && last.Valid() && last.Normalised()
      requires part == BySecond || part == ByMinute || part == ByHour
      requires DefaultsHold()
      requires last.hour == dtstart.hour && last.minute == dtstart.minute && last.second == dtstart.second
      modifies last, this`byIndices
      ensures wrapped == 1 && DefaultsHold()
      ensures last.Valid() && last.Normalised() && last.Fields() == old(last.Fields()) && last.isDate == old(last.isDate)
      decreases if part == ByHour then 2 else if part == ByMinute then 1 else 0
    {
      if part != BySecond {
        var smaller := NextGeneric(if part == ByHour then ByMinute else BySecond);
        if smaller == 0 {
          return 0;
        }
      }
      wrapped := 0;
      byIndices := byIndices[part := byIndices[part] + 1];
      if byIndices[part] == |byData[part]| {
        byIndices := byIndices[part := 0];
        wrapped := 1;
      }
      last.Set(FieldOf(part), byData[part][byIndices[part]]);
    }

    /** next_day for DAILY and next_week for WEEKLY: the clock wraps at once, then days are added. */
    method Advance(ghost k: nat)
      requires StandsAt(k)
      modifies last, dtstart, this`byIndices
      ensures DefaultsHold() && dtstart.Valid() && dtstart.Normalised()
      ensures last.Valid() && last.Normalised() && last.isDate == dtstart.isDate
      ensures dtstart.Instant() == old(dtstart.Instant()) && dtstart.isDate == old(dtstart.isDate)
      ensures last.Instant() == old(last.Instant()) + 86400 * StepDays(rule)
    {
      hide DayNumber, FromYear100;
      SameClock(last, dtstart, StepDays(rule) * k);
      var wrapped := NextGeneric(ByHour);
      if wrapped != 0 {
        if rule.freq == Daily {
          IncrementMonthday(rule.interval);
        } else {
          IncrementMonthday(7 * rule.interval);
        }
      }
    }

    /**
     * Adds one day at a time. Reading the day normalises the value first, so it never exceeds
     * the length of the month it was read against and increment_month is never reached.
     */
    method IncrementMonthday(days: nat)
      requires last.Valid() && last.Normalised()
      modifies last
      ensures last.Valid() && last.Normalised() && last.isDate == old(last.isDate)
      ensures last.Instant() == old(last.Instant()) + 86400 * days
      ensures (last.hour, last.minute, last.second) == old((last.hour, last.minute, last.second))
    {
      hide DayNumber;
      var i := 0;
      while i < days
        invariant 0 <= i <= days
        invariant last.Valid() && last.Normalised() && last.isDate == old(last.isDate)
        invariant last.Instant() == old(last.Instant()) + 86400 * i
        invariant (last.hour, last.minute, last.second) == old((last.hour, last.minute, last.second))
      {
        ghost var before := last.Fields();
        var m := last.Get(Month);
        var y := last.Get(Year);
        InstantDetermines(last.Fields(), before);
        var length := DaysInMonth(m, y);
        var d := last.Get(Day);
        last.Set(Day, d + 1);
        d := last.Get(Day);
        DayNumberShift(before.year, before.month, before.day, 1);
        DayAfter(before, last.Fields());
        assert d <= length;
        i := i + 1;
      }
    }

    /** check_contract_restriction for the parts the frequency could contract. */
    method CheckContractingRules() returns (ok: bool)
      requires last.Valid() && last.Normalised() && DefaultsHold() && last != dtstart
      modifies last
      ensures ok
      ensures last.Valid() && last.Normalised() && last.Instant() == old(last.Instant()) && last.isDate == old(last.isDate)
      ensures last.Fields() == old(last.Fields())
    {
      ghost var before := last.Fields();
      var d := last.Get(Day);
      InstantDetermines(last.Fields(), before);
      ok := Satisfied(ByDay, Zeller(last.year, last.month, last.day, 1))
            && Satisfied(ByMonthDay, last.day) && Satisfied(ByMonth, last.month);
    }

    predicate Satisfied(part: Part, v: int)
      reads this
    {
      part in byData && Treat(rule.freq, part) == Contract ==> v in byData[part]
    }

    /**
     * The next occurrence: after it the n-th occurrence, counted from 0, has the value DTSTART plus n
     * intervals. Each call counts one occurrence, except that a day which has the same time on the
     * host clock as the day before is taken for a repetition: it is counted and passed over. That
     * happens to no rule but a daily one, and not from 1753 on. The value returned is the iterator's
     * own `last`, which the following call changes.
     */
    method Next() returns (occurrence: Time, raised: bool)
      requires Valid()
      modifies this`occurrenceNumber, this`byIndices, last, dtstart
      ensures !raised && Valid() && occurrence == last
      ensures occurrenceNumber == old(occurrenceNumber) + if old(RepeatsNext()) then 2 else 1
      ensures Gregorian(old(dtstart.Instant())) ==> occurrenceNumber == old(occurrenceNumber) + 1
      ensures dtstart.Instant() == old(dtstart.Instant()) && dtstart.isDate == old(dtstart.isDate)
      ensures occurrence.Instant() == dtstart.Instant() + 86400 * (StepDays(rule) * (occurrenceNumber - 1))
    {
      hide DayNumber, IsDate, Time.HostTime, StepDays, Time.Instant, Time.Normalised, Time.Valid, Gregorian, DefaultsHold;
      hide IsRepeatedDay, DayOf, FromYear100, Modelled;
      StepPositive(rule);
      NoRepeatFrom1753(dtstart.Instant(), StepDays(rule), Passed());
      occurrence, raised := NextAgain(false, Passed());
    }

    /** `next`, where `again` says that the call before met a repetition; a second one raises. */
    method NextAgain(again: bool, ghost k: nat) returns (occurrence: Time, raised: bool)
      requires StandsAt(k)
      modifies this`occurrenceNumber, this`byIndices, last, dtstart
      ensures occurrence == last
      ensures raised <==> again && old(RepeatsNext())
      ensures dtstart.Instant() == old(dtstart.Instant()) && dtstart.isDate == old(dtstart.isDate)
      ensures !raised ==> occurrenceNumber == old(occurrenceNumber) + if old(RepeatsNext()) then 2 else 1
      ensures !raised ==> StandsAt(if old(occurrenceNumber) == 0 then k else k + occurrenceNumber - old(occurrenceNumber))
      decreases !again
    {
      hide DayNumber, IsDate, Civil.InRange, Civil.DayCount, Time.HostTime, Time.Instant, StepDays, FromYear100;
      hide IsRepeatedDay, DayOf, Treat, Time.Normalised, Time.Valid, Modelled;
      raised := false;
      var previous := last.Clone();
      CopyOfNormalised(last, previous);
      ghost var at := last.Instant();
      StandsFrom100(this, k);
      var notBefore := NotBeforeStart(k);
      if occurrenceNumber == 0 && notBefore {
        occurrenceNumber := occurrenceNumber + 1;
        return last, raised;
      }
      var same := SeekOther(previous, k);
      if same {
        if again {
          return last, true;
        }
        AfterRepeat(at);
        var _, failed := NextAgain(true, k + 1);
        assert !failed;
      }
      occurrenceNumber := occurrenceNumber + 1;
      return last, raised;
    }

    /** this.last.compare(this.dtstart) >= 0 */
    method NotBeforeStart(ghost k: nat) returns (notBefore: bool)
      requires StandsAt(k)
      modifies last, dtstart
      ensures notBefore && StandsAt(k)
      ensures last.Instant() == old(last.Instant()) && last.Fields() == old(last.Fields())
      ensures dtstart.Instant() == old(dtstart.Instant()) && dtstart.isDate == old(dtstart.isDate)
    {
      hide DayNumber, IsDate, Civil.InRange, Civil.DayCount, Time.HostTime, StepDays, FromYear100, Treat;
      var order := last.Compare(dtstart);
      StepPositive(rule);
      OneMoreStep(StepDays(rule), k);
      DaysApart(last, dtstart, StepDays(rule) * k);
      notBefore := order >= 0;
    }

    /** Advances and says whether the new value has the time of the one before. */
    method SeekOther(previous: Time, ghost k: nat) returns (same: bool)
      requires StandsAt(k) && previous != last && previous != dtstart
      requires previous.Valid() && previous.Normalised() && previous.Instant() == last.Instant()
      modifies last, dtstart, previous, this`byIndices
      ensures StandsAt(k + 1)
      ensures dtstart.Instant() == old(dtstart.Instant()) && dtstart.isDate == old(dtstart.isDate)
      ensures last.Instant() == old(last.Instant()) + 86400 * StepDays(rule)
      ensures same <==> StepDays(rule) == 1 && IsRepeatedDay(DayOf(old(last.Instant())))
    {
      hide DayNumber, IsDate, Civil.InRange, Civil.DayCount, Time.HostTime, StepDays, FromYear100, Treat, DayOf;
      hide IsRepeatedDay;
      StepPositive(rule);
      OneMoreStep(StepDays(rule), k);
      StandsFrom100(this, k);
      Seek(k);
      var order := last.Compare(previous);
      DaysApart(last, previous, StepDays(rule));
      same := order == 0;
    }

    /** The inner loop of `next`: advances until a value passes the contracting rules. */
    method Seek(ghost k: nat)
      requires StandsAt(k)
      modifies last, dtstart, this`byIndices
      ensures StandsAt(k + 1)
      ensures dtstart.Instant() == old(dtstart.Instant()) && dtstart.isDate == old(dtstart.isDate)
    {
      hide DayNumber, Time.HostTime, StepDays;
      StepPositive(rule);
      OneMoreStep(StepDays(rule), k);
      var again := true;
      while again
        invariant again ==> StandsAt(k)
        invariant !again ==> StandsAt(k + 1)
        invariant dtstart.Instant() == old(dtstart.Instant()) && dtstart.isDate == old(dtstart.isDate)
        decreases again
      {
        Advance(k);
        var ok := CheckContractingRules();
        var notBefore := NotBeforeStart(k + 1);
        again := !ok || !notBefore;
      }
    }
  }

  lemma LaterIsFromYear100(earlier: int, later: int)
    requires FromYear100(earlier) && earlier <= later
    ensures FromYear100(later)
  {
  }

  lemma StandsFrom100(it: RecurIterator, k: nat)
    requires it.StandsAt(k)
    ensures FromYear100(it.last.Instant())
  {
    hide FromYear100, StepDays;
    StepPositive(it.rule);
    OneMoreStep(StepDays(it.rule), k);
    LaterIsFromYear100(it.dtstart.Instant(), it.last.Instant());
  }

  /** The day behind a repeated day is not repeated. */
  lemma AfterRepeat(instant: int)
    requires FromYear100(instant) && IsRepeatedDay(DayOf(instant))
    ensures !IsRepeatedDay(DayOf(instant + 86400))
  {
    hide *;
    DayFromYear100(instant);
    DaysLater(instant, 1);
    DriftStep(DayOf(instant));
  }

  lemma CopyOfNormalised(t: Time, copy: Time)
    requires t.Normalised() && copy.Fields() == t.Fields() && copy.isDate == t.isDate
    ensures copy.Normalised() && copy.Instant() == t.Instant()
  {
  }

  lemma NoRepeatFrom1753(start: int, step: int, k: nat)
    requires step > 0
    ensures Gregorian(start) ==> !IsRepeatedDay(DayOf(start + 86400 * (step * k)))
  {
    hide IsRepeatedDay, YearStart;
    if Gregorian(start) {
      OneMoreStep(step, k);
      DaysLater(start, step * k);
      assert DayOf(start) > YearStart(1753);
      RepeatedBefore1753(DayOf(start + 86400 * (step * k)));
    }
  }

  // ----- where the iterator starts -----

  /** The year a copy of the stored fields shows; a date carries its stored clock when it is copied. */
  ghost function CopiedYear(t: Time): int
    reads t
  {
    if t.isDate then YearOfDay(DayOf(86400 * t.DayCount() + t.ClockSeconds())) else t.year
  }

  lemma YearOfDate(c: Civil)
    requires c.InRange()
    ensures DayOf(86400 * c.DayCount() + c.ClockSeconds()) == c.DayCount() && YearOfDay(c.DayCount()) == c.year
  {
    hide DayNumber, DaysInMonth, MonthOfDay;
    DriftOnDate(c.year, c.month, c.day);
    assert MonthIndex(c.year, c.month) / 12 == c.year;
  }

  lemma YearOfCopy(t: Time, copy: Time)
    requires copy.isDate == t.isDate && (!t.isDate ==> copy.Fields() == t.Fields()) && (t.isDate ==> copy.InRange())
    requires t.isDate ==> 86400 * copy.DayCount() + copy.ClockSeconds() == 86400 * t.DayCount() + t.ClockSeconds()
    ensures copy.year == CopiedYear(t)
  {
    hide DayNumber, IsDate, YearOfDay, DayOf;
    if t.isDate {
      YearOfDate(copy.Fields());
    }
  }

  lemma YearOfNormalised(t: Time)
    requires t.Normalised()
    ensures YearOfDay(DayOf(t.Instant())) == t.year && CopiedYear(t) == t.year
  {
    hide DayNumber, IsDate, YearOfDay, DayOf;
    YearOfDate(t.Fields());
  }

  lemma StartsOnStart(it: RecurIterator)
    requires Modelled(it.rule) && it.last != it.dtstart && it.occurrenceNumber == 0 && it.DefaultsHold()
    requires it.dtstart.Valid() && it.dtstart.Normalised()
    requires it.last.Valid() && it.last.isDate == it.dtstart.isDate
    requires it.last.Fields() == it.dtstart.Fields().(year := it.last.year)
    ensures it.Valid() <==> FromYear100(it.dtstart.Instant()) && it.last.year == it.dtstart.year
  {
    hide DayNumber, IsDate, FromYear100, StepDays;
    if it.Valid() {
      InstantDetermines(it.last.Fields(), it.dtstart.Fields());
    }
  }

  /** The day after a date has the same clock and a day within the length of the month left. */
  lemma DayAfter(before: Civil, after: Civil)
    requires before.InRange() && after.InRange()
    requires 86400 * after.DayCount() + after.ClockSeconds()
             == 86400 * before.(day := before.day + 1).DayCount() + before.ClockSeconds()
    ensures after.day <= DaysInMonth(before.month, before.year)
    ensures after.ClockSeconds() == before.ClockSeconds()
    ensures after.hour == before.hour && after.minute == before.minute && after.second == before.second
  {
    hide DayNumber;
    var (y, m, d) := NextDay(before.year, before.month, before.day);
    NextDayCount(before.year, before.month, before.day);
    InstantDetermines(after, Civil(y, m, d, before.hour, before.minute, before.second));
  }

  lemma NextDayCount(year: int, month: int, day: int)
    requires IsDate(year, month, day)
    ensures var (y, m, d) := NextDay(year, month, day);
      IsDate(y, m, d) && DayNumber(y, m, d) == DayNumber(year, month, day + 1)
  {
    hide MonthStart;
    MonthStartStep(year, month);
  }

  /** Whole days apart, two values show the same clock. */
  lemma SameClock(last: Time, start: Time, days: int)
    requires last.Normalised() && start.Normalised() && last.isDate == start.isDate
    requires last.Instant() == start.Instant() + 86400 * days
    ensures last.hour == start.hour && last.minute == start.minute && last.second == start.second
  {
    hide DayNumber;
    ClockDigits(last.hour, last.minute, last.second, start.hour, start.minute, start.second,
                start.DayCount() + days - last.DayCount());
  }

  lemma ClockDigits(h1: int, m1: int, s1: int, h2: int, m2: int, s2: int, days: int)
    requires 0 <= h1 < 24 && 0 <= m1 < 60 && 0 <= s1 < 60
    requires 0 <= h2 < 24 && 0 <= m2 < 60 && 0 <= s2 < 60
    requires 3600 * h1 + 60 * m1 + s1 == 3600 * h2 + 60 * m2 + s2 + 86400 * days
    ensures h1 == h2 && m1 == m2 && s1 == s2
  {
    assert days == 0;
    assert 60 * h1 + m1 == 60 * h2 + m2;
  }

  lemma StepPositive(rule: Rule)
    requires Modelled(rule)
    ensures StepDays(rule) > 0
  {
  }

  lemma OneMoreStep(step: int, k: nat)
    requires step > 0
    ensures step * k >= 0 && step * (k + 1) == step * k + step
  {
  }

  // ----- two runs -----

  method Stored(year: int, month: int, day: int) returns (t: Time)
    ensures fresh(t) && t.Valid() && !t.isDate && t.Fields() == Civil(year, month, day, 0, 0, 0)
  {
    hide Time.Valid;
    t := new Time();
    t.Set(Year, year);
    t.Set(Month, month);
    t.Set(Day, day);
  }

  method StoredDate(year: int, month: int, day: int) returns (t: Time)
    requires IsDate(year, month, day)
    ensures fresh(t) && t.Valid() && t.Normalised() && t.isDate && t.Instant() == 86400 * DayNumber(year, month, day)
  {
    hide DayNumber, Time.Valid, IsDate;
    t := Stored(year, month, day);
    t.SetIsDate(true);
    InstantDetermines(t.Fields(), Civil(year, month, day, 0, 0, 0));
  }

  method ShownBy(t: Time) returns (c: Civil)
    ensures c == t.Fields()
  {
    c := Civil(t.year, t.month, t.day, t.hour, t.minute, t.second);
  }

  /** The value of an iterator over dates is the date of its instant. */
  lemma ShowsDate(it: RecurIterator, year: int, month: int, day: int)
    requires it.Valid() && it.dtstart.isDate && IsDate(year, month, day)
    requires it.last.Instant() == 86400 * DayNumber(year, month, day)
    ensures it.last.Fields() == Civil(year, month, day, 0, 0, 0)
  {
    hide DayNumber, IsDate, Gregorian, FromYear100;
    InstantDetermines(it.last.Fields(), Civil(year, month, day, 0, 0, 0));
  }

  lemma ExtraDay(year: int)
    requires year >= 100 && IsLeapYear(year) && !IsGregorianLeapYear(year)
    ensures IsDate(year, 2, 29) && IsDate(year, 3, 1) && IsDate(year, 3, 2)
    ensures DayNumber(year, 3, 2) == DayNumber(year, 2, 29) + 2
    ensures IsRepeatedDay(DayNumber(year, 2, 29)) && FromYear100(86400 * DayNumber(year, 2, 29))
    ensures DayOf(86400 * DayNumber(year, 2, 29)) == DayNumber(year, 2, 29)
  {
    assert IsDate(year, 2, 29) && IsDate(year, 3, 1) && IsDate(year, 3, 2) && DaysInMonth(2, year) == 29;
    hide DayNumber, IsRepeatedDay, YearStart;
    FirstOfNext(year, 2, year, 3);
    DayNumberShift(year, 3, 1, 1);
    RepeatedDate(year, 2, 29);
    YearFromDayNumber(year, 2, 29, 100);
  }

  lemma Daily1(rule: Rule)
    requires rule == Rule(Daily, 1)
    ensures Modelled(rule) && StepDays(rule) == 1
  {
  }

  lemma RepeatsWhen(it: RecurIterator, day: int)
    requires StepDays(it.rule) == 1 && IsRepeatedDay(day)
    ensures it.occurrenceNumber == 0 ==> !it.RepeatsNext()
    ensures it.occurrenceNumber == 1 && DayOf(it.last.Instant()) == day ==> it.RepeatsNext()
  {
  }

  /** A daily rule from a 29 February that only the Julian rule has, as in 1700, passes over 1 March. */
  method PassesOverADay(year: int) returns (first: Civil, second: Civil)
    requires year >= 100 && IsLeapYear(year) && !IsGregorianLeapYear(year)
    ensures first == Civil(year, 2, 29, 0, 0, 0) && second == Civil(year, 3, 2, 0, 0, 0)
  {
    hide *;
    ExtraDay(year);
    var rule := Rule(Daily, 1);
    Daily1(rule);
    var start := StoredDate(year, 2, 29);
    var it := new RecurIterator(rule, start);
    RepeatsWhen(it, DayNumber(year, 2, 29));
    var occurrence, raised := it.Next();
    ShowsDate(it, year, 2, 29);
    first := ShownBy(occurrence);
    RepeatsWhen(it, DayNumber(year, 2, 29));
    occurrence, raised := it.Next();
    ShowsDate(it, year, 3, 2);
    second := ShownBy(occurrence);
  }

  lemma MonthThirteen(year: int)
    ensures DayNumber(year, 13, 1) == DayNumber(year + 1, 1, 1) && IsDate(year + 1, 1, 1)
  {
  }

  lemma Shows(t: Time, c: Civil)
    requires t.Normalised() && !t.isDate && c.InRange()
    requires t.Instant() == 86400 * c.DayCount() + c.ClockSeconds()
    ensures t.Fields() == c
  {
    hide DayNumber, IsDate;
    InstantDetermines(t.Fields(), c);
  }

  /** Month 13 is January of the next year, but the copy the iterator starts on shows January of the year. */
  method StartsAYearEarly(year: int, rule: Rule) returns (start: Time, it: RecurIterator)
    requires Modelled(rule)
    ensures start.Fields() == Civil(year + 1, 1, 1, 0, 0, 0) && it.dtstart == start
    ensures it.last.Fields() == Civil(year, 1, 1, 0, 0, 0)
  {
    hide DayNumber, IsDate, Time.HostTime, Time.Normalised, Time.Valid, YearOfDay, FromYear100, DayOf, StepDays;
    MonthThirteen(year);
    start := Stored(year, 13, 1);
    it := new RecurIterator(rule, start);
    Shows(start, Civil(year + 1, 1, 1, 0, 0, 0));
  }
}
