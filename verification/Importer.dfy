/**
 * The importer of calendar files: the scan of each series for occurrences in a window of days, with
 * its limits. Days and instants are numbers; what the calendar library returns is given.
 */
module CalendarImport {
  import opened Wrappers

  const MAX_DEFINITIONS := 500
  const MAX_STEPS := 10000
  const MAX_EVENTS := 1000
  const MAX_RANGE_DAYS := 366
  const MAX_UID_LENGTH := 512

  const MAX_SIZE := 1000000

  const SIZE_MESSAGE := "Use an ICS file smaller than 1 MB."
  const LINK_MESSAGE :=
    "This is a calendar link. Use Connect calendar \U{2192} ICS link, or paste the downloaded ICS file contents here."
  const SYNTAX_MESSAGE :=
    "This is not valid ICS content. Paste the complete BEGIN:VCALENDAR \U{2026} END:VCALENDAR text."
  const INCOMPLETE_MESSAGE := "Paste a complete VCALENDAR file."
  const RANGE_MESSAGE := "Choose an import range of up to one year."
  const NO_EVENTS_MESSAGE := "No calendar events were found."
  const DEFINITIONS_MESSAGE := "This file has more than 500 event definitions. Export a smaller date range."
  const UID_MESSAGE := "A valid UID is required to prevent duplicate imports."
  const STEPS_MESSAGE := "Recurrence scan " + "limit" + " reached; choose a smaller export."
  const ORDER_MESSAGE := "End precedes start."
  const COUNT_MESSAGE := "More than " + "1,000" + " occurrences. Choose a shorter import range."
  const CANCELLED_MESSAGE := "cancelled event skipped; existing imports are not automatically removed."

  datatype Details = Details(cancelled: bool, allDay: bool, date: int, endDate: int, startAt: int, endAt: int)

  /** An occurrence at its original place; an exception may give other details. */
  datatype Occurrence = Occurrence(key: string, day: int, details: Result<Details, string>)

  /** What the iterator of a series answers. */
  datatype Next = Done | Fails(message: string) | Value(occurrence: Occurrence)

  /** An exception of a series: the day it was moved to and the day of the occurrence it replaces. */
  datatype Exception = Exception(changedDay: int, originalDay: int)

  /** `setup` and `rules` hold the error found before and after the test for a cancelled series. */
  datatype Series = Series(
    uid: Option<string>, title: string, setup: Option<string>, cancelled: bool, exceptions: seq<Exception>,
    rules: Option<string>, recurring: bool, occurrences: nat -> Next)

  /** parse encodes the two texts of an identifier apart, so they compare as a pair. */
  datatype EventId = EventId(uid: string, key: Option<string>)

  datatype Event = Event(id: EventId, details: Details, recurring: bool)

  datatype State = State(events: seq<Event>, seen: set<EventId>, steps: nat, outside: nat)

  datatype Outcome = Finished | Thrown(message: string)

  datatype Import = Import(events: seq<Event>, warnings: seq<string>, outside: nat)

  /** What is known of the pasted text: its sizes, what it looks like, and what the parser makes of it. */
  datatype File = File(
    isText: bool, units: nat, octets: nat, isLink: bool, parses: bool, isCalendar: bool, isClosed: bool, definitions: nat)

  // ----- messages -----

  predicate Contains(text: string, word: string) {
    |text| >= |word| && (text[..|word|] == word || (|text| > |word| && Contains(text[1..], word)))
  }

  /** Errors that end the import; others end one series. */
  predicate IsFatal(message: string) {
    Contains(message, "limit") || Contains(message, "1,000")
  }

  lemma {:induction false} ContainsIn(before: string, word: string, after: string)
    ensures Contains(before + word + after, word)
    decreases before
  {
    var text := before + word + after;
    if before == "" {
      assert text[..|word|] == word;
    } else {
      assert text[1..] == before[1..] + word + after;
      ContainsIn(before[1..], word, after);
    }
  }

  lemma LimitsAreFatal()
    ensures IsFatal(STEPS_MESSAGE) && IsFatal(COUNT_MESSAGE)
  {
    hide Contains;
    ContainsIn("Recurrence scan ", "limit", " reached; choose a smaller export.");
    ContainsIn("More than ", "1,000", " occurrences. Choose a shorter import range.");
  }

  // ----- the window -----

  predicate MeetsWindow(d: Details, from: int, until: int) {
    d.date < until && (if d.allDay then d.endDate > from else d.date >= from || d.endDate >= from)
  }

  predicate MovedInto(e: Exception, from: int, until: int) {
    from <= e.changedDay < until
  }

  /** The scan goes on past the window as far as an exception that was moved into it. */
  method ScanEnd(exceptions: seq<Exception>, from: int, until: int) returns (end: int)
    ensures end >= until
    ensures forall k :: 0 <= k < |exceptions| && MovedInto(exceptions[k], from, until) ==> exceptions[k].originalDay < end
    ensures end == until
            || exists k :: 0 <= k < |exceptions| && MovedInto(exceptions[k], from, until) && end == exceptions[k].originalDay + 1
    ensures end == ScanEndOf(exceptions, from, until)
  {
    end := until;
    for i := 0 to |exceptions|
      invariant until <= end
      invariant forall k :: 0 <= k < i && MovedInto(exceptions[k], from, until) ==> exceptions[k].originalDay < end
      invariant end == until
                || exists k :: 0 <= k < i && MovedInto(exceptions[k], from, until) && end == exceptions[k].originalDay + 1
      invariant end == ScanEndOf(exceptions[..i], from, until)
    {
      assert exceptions[..i + 1][..i] == exceptions[..i];
      var e := exceptions[i];
      if e.changedDay >= from && e.changedDay < until && e.originalDay >= end {
        end := e.originalDay + 1;
      }
    }
    assert exceptions[..|exceptions|] == exceptions;
  }

  /** The least day on which no exception moved into the window, nor the window, begins or lies after. */
  function ScanEndOf(exceptions: seq<Exception>, from: int, until: int): (end: int)
    ensures end >= until
    ensures forall k :: 0 <= k < |exceptions| && MovedInto(exceptions[k], from, until) ==> exceptions[k].originalDay < end
  {
    if exceptions == [] then until
    else
      var last := exceptions[|exceptions| - 1];
      var end := ScanEndOf(exceptions[..|exceptions| - 1], from, until);
      if MovedInto(last, from, until) && last.originalDay >= end then last.originalDay + 1 else end
  }

  // ----- one series -----

  function IdOf(s: Series, o: Occurrence): EventId
    requires s.uid.Some?
  {
    EventId(s.uid.value, if s.recurring then Some(o.key) else None)
  }

  /** The k-th answer of the iterator; a single event is its only occurrence. */
  function At(s: Series, k: nat): Next {
    if s.recurring || k == 0 then s.occurrences(k) else Done
  }

  function Add(st: State, e: Event): State {
    st.(events := st.events + [e], seen := st.seen + {e.id})
  }

  /** One occurrence: the next state, and the outcome if the scan ends with it. */
  function Visit(s: Series, o: Occurrence, from: int, until: int, end: int, st: State): (State, Option<Outcome>)
    requires s.uid.Some?
  {
    var counted := st.(steps := st.steps + 1);
    if counted.steps > MAX_STEPS then (counted, Some(Thrown(STEPS_MESSAGE)))
    else if o.details.Err? then (counted, Some(Thrown(o.details.error)))
    else
      var d := o.details.value;
      if d.cancelled then (counted, None)
      else if d.endAt < d.startAt then (counted, Some(Thrown(ORDER_MESSAGE)))
      else if s.recurring && o.day >= end then (counted, Some(Finished))
      else if !MeetsWindow(d, from, until) then (counted.(outside := st.outside + 1), None)
      else if IdOf(s, o) in st.seen then (counted, None)
      else
        var added := Add(counted, Event(IdOf(s, o), d, s.recurring));
        (added, if |added.events| > MAX_EVENTS then Some(Thrown(COUNT_MESSAGE)) else None)
  }

  /** The scan of a series from its k-th occurrence on. */
  function Scan(s: Series, from: int, until: int, end: int, k: nat, st: State): (State, Outcome)
    requires s.uid.Some?
    decreases MAX_STEPS + 1 - st.steps
  {
    match At(s, k)
    case Done => (st, Finished)
    case Fails(message) => (st, Thrown(message))
    case Value(o) =>
      var (next, ended) := Visit(s, o, from, until, end, st);
      if ended.Some? then (next, ended.value) else Scan(s, from, until, end, k + 1, next)
  }

  method ScanSeries(s: Series, from: int, until: int, end: int, st: State) returns (r: State, outcome: Outcome)
    requires s.uid.Some?
    ensures (r, outcome) == Scan(s, from, until, end, 0, st)
  {
    r := st;
    var k := 0;
    var next := At(s, k);
    while next.Value?
      invariant next == At(s, k)
      invariant Scan(s, from, until, end, k, r) == Scan(s, from, until, end, 0, st)
      decreases MAX_STEPS + 1 - r.steps
    {
      var o := next.occurrence;
      r := r.(steps := r.steps + 1);
      if r.steps > MAX_STEPS {
        return r, Thrown(STEPS_MESSAGE);
      }
      if o.details.Err? {
        return r, Thrown(o.details.error);
      }
      var d := o.details.value;
      if !d.cancelled {
        if d.endAt < d.startAt {
          return r, Thrown(ORDER_MESSAGE);
        }
        if s.recurring && o.day >= end {
          break;
        }
        if MeetsWindow(d, from, until) {
          var id := IdOf(s, o);
          if id !in r.seen {
            r := Add(r, Event(id, d, s.recurring));
            if |r.events| > MAX_EVENTS {
              return r, Thrown(COUNT_MESSAGE);
            }
          }
        } else {
          r := r.(outside := r.outside + 1);
        }
      }
      k := k + 1;
      next := At(s, k);
    }
    outcome := if next.Fails? then Thrown(next.message) else Finished;
  }

  // ----- all series -----

  datatype Progress = Progress(state: State, warnings: seq<string>)

  const START := Progress(State([], {}, 0, 0), [])

  function Warned(s: Series, st: State, warnings: seq<string>, message: string): Progress {
    Progress(st, warnings + [s.title + ": " + message])
  }

  predicate HasUid(s: Series) {
    s.uid.Some? && s.uid.value != "" && |s.uid.value| <= MAX_UID_LENGTH
  }

  /** The error found before the scan, if any. */
  function Problem(s: Series): Option<string> {
    if !HasUid(s) then Some(UID_MESSAGE)
    else if s.setup.Some? then s.setup
    else if s.cancelled then None
    else s.rules
  }

  predicate IsScanned(s: Series) {
    Problem(s).None? && !s.cancelled
  }

  function ScanAll(s: Series, from: int, until: int, st: State): (State, Outcome)
    requires IsScanned(s)
  {
    Scan(s, from, until, ScanEndOf(s.exceptions, from, until), 0, st)
  }

  /** A series adds its occurrences; a fatal error ends the import, any other becomes a warning. */
  function Take(s: Series, from: int, until: int, p: Progress): Result<Progress, string> {
    var (st, outcome) :=
      if Problem(s).Some? then (p.state, Thrown(Problem(s).value))
      else if s.cancelled then (p.state, Finished)
      else ScanAll(s, from, until, p.state);
    if outcome.Thrown? then
      if IsFatal(outcome.message) then Err(outcome.message) else Ok(Warned(s, st, p.warnings, outcome.message))
    else if s.cancelled then Ok(Warned(s, st, p.warnings, CANCELLED_MESSAGE))
    else Ok(Progress(st, p.warnings))
  }

  function TakeAll(series: seq<Series>, from: int, until: int): Result<Progress, string> {
    if series == [] then Ok(START)
    else
      var rest := TakeAll(series[..|series| - 1], from, until);
      if rest.Err? then rest else Take(series[|series| - 1], from, until, rest.value)
  }

  // ----- sorting -----

  function Insert(e: Event, list: seq<Event>): seq<Event> {
    if list == [] || e.details.startAt < list[0].details.startAt then [e] + list
    else [list[0]] + Insert(e, list[1..])
  }

  /** The stable sort by start. */
  function SortByStart(list: seq<Event>): seq<Event> {
    if list == [] then [] else Insert(list[|list| - 1], SortByStart(list[..|list| - 1]))
  }

  predicate Ascending(list: seq<Event>) {
    forall i, j :: 0 <= i < j < |list| ==> list[i].details.startAt <= list[j].details.startAt
  }

  predicate DistinctIds(list: seq<Event>) {
    forall i, j :: 0 <= i < j < |list| ==> list[i].id != list[j].id
  }

  /** The events that start at an instant, in their order. */
  function StartingAt(list: seq<Event>, instant: int): seq<Event> {
    if list == [] then []
    else IfAt(list[0], instant) + StartingAt(list[1..], instant)
  }

  function IfAt(e: Event, instant: int): seq<Event> {
    if e.details.startAt == instant then [e] else []
  }

  lemma {:induction false} InsertAdds(e: Event, list: seq<Event>)
    ensures var r := Insert(e, list);
      && |r| == |list| + 1 && (forall x :: x in r <==> x == e || x in list)
      && multiset(r) == multiset(list) + multiset{e}
  {
    if list != [] && e.details.startAt >= list[0].details.startAt {
      InsertAdds(e, list[1..]);
      assert list == [list[0]] + list[1..];
    }
  }

  lemma {:induction false} InsertSorts(e: Event, list: seq<Event>)
    requires Ascending(list)
    ensures Ascending(Insert(e, list))
  {
    if list != [] && e.details.startAt >= list[0].details.startAt {
      InsertSorts(e, list[1..]);
      InsertAdds(e, list[1..]);
      var rest := Insert(e, list[1..]);
      forall j | 0 <= j < |rest|
        ensures list[0].details.startAt <= rest[j].details.startAt
      {
        assert rest[j] in rest;
      }
    }
  }

  lemma SplitAssociates(a: seq<Event>, b: seq<Event>, c: seq<Event>)
    ensures a + (b + c) == (a + b) + c
  {
  }

  lemma {:induction false} InsertStable(e: Event, list: seq<Event>, instant: int)
    requires Ascending(list)
    ensures StartingAt(Insert(e, list), instant) == StartingAt(list, instant) + IfAt(e, instant)
  {
    if list == [] {
    } else if e.details.startAt < list[0].details.startAt {
      assert ([e] + list)[1..] == list;
      if e.details.startAt == instant {
        NoneStartAt(list, instant);
      }
    } else {
      var rest := Insert(e, list[1..]);
      assert ([list[0]] + rest)[1..] == rest;
      InsertStable(e, list[1..], instant);
      hide IfAt;
      SplitAssociates(IfAt(list[0], instant), StartingAt(list[1..], instant), IfAt(e, instant));
    }
  }

  lemma {:induction false} NoneStartAt(list: seq<Event>, instant: int)
    requires forall k :: 0 <= k < |list| ==> list[k].details.startAt != instant
    ensures StartingAt(list, instant) == []
  {
    if list != [] {
      NoneStartAt(list[1..], instant);
    }
  }

  lemma {:induction false} StartingAtLast(list: seq<Event>, e: Event, instant: int)
    ensures StartingAt(list + [e], instant) == StartingAt(list, instant) + IfAt(e, instant)
  {
    hide IfAt;
    if list == [] {
      assert list + [e] == [e];
    } else {
      assert (list + [e])[1..] == list[1..] + [e] && (list + [e])[0] == list[0];
      StartingAtLast(list[1..], e, instant);
      SplitAssociates(IfAt(list[0], instant), StartingAt(list[1..], instant), IfAt(e, instant));
    }
  }

  /** The result is a permutation in ascending order that keeps events of one start in their order. */
  lemma {:induction false} SortSorts(list: seq<Event>)
    ensures var r := SortByStart(list);
      && Ascending(r) && |r| == |list| && multiset(r) == multiset(list)
      && (forall x :: x in r <==> x in list)
      && (forall instant :: StartingAt(r, instant) == StartingAt(list, instant))
  {
    if list != [] {
      var init, last := list[..|list| - 1], list[|list| - 1];
      assert list == init + [last];
      SortSorts(init);
      InsertSorts(last, SortByStart(init));
      InsertAdds(last, SortByStart(init));
      forall instant
        ensures StartingAt(SortByStart(list), instant) == StartingAt(list, instant)
      {
        InsertStable(last, SortByStart(init), instant);
        StartingAtLast(init, last, instant);
      }
    }
  }

  lemma {:induction false} InsertDistinct(e: Event, list: seq<Event>)
    requires Ascending(list) && DistinctIds(list) && forall k :: 0 <= k < |list| ==> list[k].id != e.id
    ensures DistinctIds(Insert(e, list))
  {
    if list != [] && e.details.startAt >= list[0].details.startAt {
      InsertDistinct(e, list[1..]);
      InsertAdds(e, list[1..]);
      var rest := Insert(e, list[1..]);
      forall k | 0 <= k < |rest|
        ensures rest[k].id != list[0].id
      {
        assert rest[k] in rest;
        assert rest[k] == e || rest[k] in list[1..];
      }
    }
  }

  lemma {:induction false} SortDistinct(list: seq<Event>)
    requires DistinctIds(list)
    ensures DistinctIds(SortByStart(list))
  {
    if list != [] {
      var init, last := list[..|list| - 1], list[|list| - 1];
      SortDistinct(init);
      SortSorts(init);
      var sorted := SortByStart(init);
      forall k | 0 <= k < |sorted|
        ensures sorted[k].id != last.id
      {
        assert sorted[k] in sorted;
        assert sorted[k] in init;
      }
      InsertDistinct(last, sorted);
    }
  }

  // ----- what the scan keeps -----

  predicate IsWanted(e: Event, from: int, until: int) {
    !e.details.cancelled && e.details.startAt <= e.details.endAt && MeetsWindow(e.details, from, until)
  }

  /** The identifiers seen are those of the events, each of which meets the window and took a step, as each outside did. */
  predicate StateInv(st: State, from: int, until: int) {
    && DistinctIds(st.events)
    && (forall i :: 0 <= i < |st.events| ==> st.events[i].id in st.seen && IsWanted(st.events[i], from, until))
    && (forall id :: id in st.seen ==> HasEvent(st.events, id))
    && |st.events| + st.outside <= st.steps
  }

  predicate HasEvent(events: seq<Event>, id: EventId) {
    exists i :: 0 <= i < |events| && events[i].id == id
  }

  predicate WithinLimits(st: State) {
    st.steps <= MAX_STEPS && |st.events| <= MAX_EVENTS
  }

  lemma VisitKeeps(s: Series, o: Occurrence, from: int, until: int, end: int, st: State)
    requires s.uid.Some? && StateInv(st, from, until) && WithinLimits(st)
    ensures var (t, ended) := Visit(s, o, from, until, end, st);
      && StateInv(t, from, until) && st.events <= t.events && st.outside <= t.outside && t.steps == st.steps + 1
      && (WithinLimits(t) || ended == Some(Thrown(STEPS_MESSAGE)) || ended == Some(Thrown(COUNT_MESSAGE)))
      && (forall id :: id in st.seen ==> id in t.seen)
  {
    hide StateInv;
    var counted := st.(steps := st.steps + 1);
    assert StateInv(counted, from, until) && StateInv(counted.(outside := st.outside + 1), from, until) by {
      SameEventsKeep(st, counted, from, until);
      SameEventsKeep(st, counted.(outside := st.outside + 1), from, until);
    }
    if o.details.Ok? {
      var e := Event(IdOf(s, o), o.details.value, s.recurring);
      if IsWanted(e, from, until) && e.id !in st.seen {
        assert |st.events| + st.outside <= st.steps by { CountsFit(st, from, until); }
        AddKeeps(counted, e, from, until);
      }
    }
  }

  lemma SameEventsKeep(st: State, t: State, from: int, until: int)
    requires StateInv(st, from, until) && t.events == st.events && t.seen == st.seen
    requires t.steps - t.outside >= st.steps - st.outside
    ensures StateInv(t, from, until)
  {
  }

  lemma CountsFit(st: State, from: int, until: int)
    requires StateInv(st, from, until)
    ensures |st.events| + st.outside <= st.steps
  {
  }

  lemma AddKeeps(st: State, e: Event, from: int, until: int)
    requires StateInv(st, from, until) && IsWanted(e, from, until) && e.id !in st.seen
    requires |st.events| + st.outside < st.steps
    ensures StateInv(Add(st, e), from, until)
  {
    var t := Add(st, e);
    forall id | id in t.seen
      ensures HasEvent(t.events, id)
    {
      if id in st.seen {
        assert HasEvent(st.events, id);
        var i :| 0 <= i < |st.events| && st.events[i].id == id;
        assert t.events[i].id == id;
      } else {
        assert t.events[|st.events|].id == id;
      }
    }
  }

  /** A scan keeps distinct identifiers and the window, and passes a limit only by the error of that limit. */
  lemma {:induction false} ScanKeeps(s: Series, from: int, until: int, end: int, k: nat, st: State)
    requires s.uid.Some? && StateInv(st, from, until) && WithinLimits(st)
    ensures var (t, outcome) := Scan(s, from, until, end, k, st);
      && StateInv(t, from, until) && st.events <= t.events && st.outside <= t.outside && st.steps <= t.steps
      && (WithinLimits(t) || outcome == Thrown(STEPS_MESSAGE) || outcome == Thrown(COUNT_MESSAGE))
      && (forall id :: id in st.seen ==> id in t.seen)
    decreases MAX_STEPS + 1 - st.steps
  {
    hide StateInv;
    var next := At(s, k);
    if next.Value? {
      VisitKeeps(s, next.occurrence, from, until, end, st);
      var (t, ended) := Visit(s, next.occurrence, from, until, end, st);
      hide Visit;
      if ended.None? {
        ScanKeeps(s, from, until, end, k + 1, t);
      }
    }
  }

  /** Whatever series the file holds, an import that does not fail stays within its limits. */
  lemma {:induction false} TakeAllKeeps(series: seq<Series>, from: int, until: int)
    ensures var r := TakeAll(series, from, until);
      r.Ok? ==> StateInv(r.value.state, from, until) && WithinLimits(r.value.state)
  {
    if series != [] {
      TakeAllKeeps(series[..|series| - 1], from, until);
      var rest := TakeAll(series[..|series| - 1], from, until);
      if rest.Ok? {
        TakeKeeps(series[|series| - 1], from, until, rest.value);
      }
    }
  }

  lemma TakeKeeps(s: Series, from: int, until: int, p: Progress)
    requires StateInv(p.state, from, until) && WithinLimits(p.state)
    ensures var r := Take(s, from, until, p);
      && (r.Ok? ==> StateInv(r.value.state, from, until) && WithinLimits(r.value.state))
      && (r.Ok? ==> p.state.events <= r.value.state.events && forall id :: id in p.state.seen ==> id in r.value.state.seen)
  {
    hide StateInv, Contains, IsFatal, Scan;
    LimitsAreFatal();
    if IsScanned(s) {
      ScanKeeps(s, from, until, ScanEndOf(s.exceptions, from, until), 0, p.state);
    }
  }

  // ----- what the scan reaches -----

  /** Occurrences up to the j-th exist, and the scan may not stop at any of them. */
  ghost predicate Reaches(s: Series, end: int, k: nat, j: nat) {
    forall i: nat :: k <= i <= j ==> At(s, i).Value? && PassesEnd(s, At(s, i).occurrence, end)
  }

  /** The scan does not stop at an occurrence before its end, nor at a cancelled one. */
  predicate PassesEnd(s: Series, o: Occurrence, end: int) {
    s.recurring ==> o.day < end || (o.details.Ok? && o.details.value.cancelled)
  }

  predicate IsWantedAt(s: Series, j: nat, from: int, until: int) {
    && At(s, j).Value? && At(s, j).occurrence.details.Ok?
    && !At(s, j).occurrence.details.value.cancelled && MeetsWindow(At(s, j).occurrence.details.value, from, until)
  }

  /** A scan that ends without an error has imported every wanted occurrence before its end. */
  lemma {:induction false} ScanImports(s: Series, from: int, until: int, end: int, k: nat, st: State, j: nat)
    requires s.uid.Some? && StateInv(st, from, until) && WithinLimits(st)
    requires k <= j && Reaches(s, end, k, j) && IsWantedAt(s, j, from, until)
    requires Scan(s, from, until, end, k, st).1.Finished?
    ensures IdOf(s, At(s, j).occurrence) in Scan(s, from, until, end, k, st).0.seen
    decreases j - k
  {
    hide StateInv;
    assert At(s, k).Value?;
    var o := At(s, k).occurrence;
    VisitKeeps(s, o, from, until, end, st);
    var (t, ended) := Visit(s, o, from, until, end, st);
    assert ended.None?;
    if k < j {
      ScanImports(s, from, until, end, k + 1, t, j);
    } else {
      ScanKeeps(s, from, until, end, k + 1, t);
    }
  }

  /** The progress before the i-th series. */
  function Before(series: seq<Series>, from: int, until: int, i: nat): Result<Progress, string>
    requires i <= |series|
  {
    TakeAll(series[..i], from, until)
  }

  /** The i-th series was scanned without an error. */
  predicate ScannedWell(series: seq<Series>, from: int, until: int, i: nat)
    requires i < |series|
  {
    && IsScanned(series[i]) && Before(series, from, until, i).Ok?
    && ScanAll(series[i], from, until, Before(series, from, until, i).value.state).1.Finished?
  }

  lemma {:induction false} SeenStays(series: seq<Series>, from: int, until: int, i: nat, id: EventId)
    requires i <= |series| && TakeAll(series, from, until).Ok?
    ensures Before(series, from, until, i).Ok?
    ensures id in Before(series, from, until, i).value.state.seen ==> id in TakeAll(series, from, until).value.state.seen
    decreases |series|
  {
    if i == |series| {
      assert series[..i] == series;
    } else {
      var rest := series[..|series| - 1];
      assert rest[..i] == series[..i];
      SeenStays(rest, from, until, i, id);
      TakeAllKeeps(rest, from, until);
      TakeKeeps(series[|series| - 1], from, until, TakeAll(rest, from, until).value);
    }
  }

  /** If the import succeeds, every wanted occurrence in reach of a well scanned series is imported. */
  lemma OccurrenceImported(series: seq<Series>, from: int, until: int, i: nat, j: nat)
    requires i < |series| && TakeAll(series, from, until).Ok? && ScannedWell(series, from, until, i)
    requires Reaches(series[i], ScanEndOf(series[i].exceptions, from, until), 0, j) && IsWantedAt(series[i], j, from, until)
    ensures HasEvent(TakeAll(series, from, until).value.state.events, IdOf(series[i], At(series[i], j).occurrence))
  {
    var s := series[i];
    assert At(s, j).Value?;
    hide Scan, Contains, Reaches, IsWantedAt;
    var id := IdOf(s, At(s, j).occurrence);
    TakeAllKeeps(series, from, until);
    TakeAllKeeps(series[..i], from, until);
    var p := Before(series, from, until, i).value;
    ScanImports(s, from, until, ScanEndOf(s.exceptions, from, until), 0, p.state, j);
    assert series[..i + 1][..i] == series[..i];
    assert id in Before(series, from, until, i + 1).value.state.seen;
    SeenStays(series, from, until, i + 1, id);
  }

  /** The original days of a series ascend up to the j-th occurrence. */
  ghost predicate DaysAscend(s: Series, j: nat) {
    && At(s, j).Value?
    && (forall i: nat :: i <= j ==> At(s, i).Value?)
    && (forall i: nat :: i <= j ==> At(s, i).occurrence.day <= At(s, j).occurrence.day)
  }

  /** An occurrence moved into the window is imported, however late the day it was moved from. */
  lemma MovedOccurrenceImported(series: seq<Series>, from: int, until: int, i: nat, j: nat, e: nat)
    requires i < |series| && TakeAll(series, from, until).Ok? && ScannedWell(series, from, until, i)
    requires DaysAscend(series[i], j) && IsWantedAt(series[i], j, from, until)
    requires e < |series[i].exceptions| && MovedInto(series[i].exceptions[e], from, until)
    requires series[i].exceptions[e].originalDay == At(series[i], j).occurrence.day
    ensures HasEvent(TakeAll(series, from, until).value.state.events, IdOf(series[i], At(series[i], j).occurrence))
  {
    hide TakeAll, ScannedWell, IsWantedAt;
    var end := ScanEndOf(series[i].exceptions, from, until);
    assert series[i].exceptions[e].originalDay < end;
    assert Reaches(series[i], end, 0, j);
    OccurrenceImported(series, from, until, i, j);
  }

  // ----- where events come from -----

  /** An event that shows an occurrence of the series under the identifier of that occurrence. */
  ghost predicate Shows(s: Series, e: Event) {
    exists k: nat :: At(s, k).Value? && ShowsAt(s, At(s, k).occurrence, e)
  }

  predicate ShowsAt(s: Series, o: Occurrence, e: Event) {
    s.uid.Some? && o.details.Ok? && e == Event(IdOf(s, o), o.details.value, s.recurring)
  }

  lemma {:induction false} ScanShows(s: Series, from: int, until: int, end: int, k: nat, st: State)
    requires s.uid.Some?
    ensures var t := Scan(s, from, until, end, k, st).0;
      && st.events <= t.events
      && forall i :: |st.events| <= i < |t.events| ==> Shows(s, t.events[i])
    decreases MAX_STEPS + 1 - st.steps
  {
    var next := At(s, k);
    if next.Value? {
      var (t, ended) := Visit(s, next.occurrence, from, until, end, st);
      assert |t.events| > |st.events| ==> ShowsAt(s, next.occurrence, t.events[|st.events|]);
      hide Visit;
      if ended.None? {
        ScanShows(s, from, until, end, k + 1, t);
      }
    }
  }

  ghost predicate FromSome(series: seq<Series>, e: Event) {
    exists i :: 0 <= i < |series| && Shows(series[i], e)
  }

  /** Nothing is imported that no series of the file holds. */
  lemma {:induction false} EventsComeFromSeries(series: seq<Series>, from: int, until: int)
    requires TakeAll(series, from, until).Ok?
    ensures var events := TakeAll(series, from, until).value.state.events;
      forall k :: 0 <= k < |events| ==> FromSome(series, events[k])
  {
    if series != [] {
      hide Take, Shows;
      var rest, s := series[..|series| - 1], series[|series| - 1];
      EventsComeFromSeries(rest, from, until);
      var before := TakeAll(rest, from, until).value.state.events;
      var events := TakeAll(series, from, until).value.state.events;
      assert before <= events by { TakeGrows(s, from, until, TakeAll(rest, from, until).value); }
      forall k | 0 <= k < |events|
        ensures FromSome(series, events[k])
      {
        if k < |before| {
          assert FromSome(rest, events[k]);
          var i :| 0 <= i < |rest| && Shows(rest[i], events[k]);
          assert Shows(series[i], events[k]);
        } else {
          assert Shows(series[|series| - 1], events[k]) by { TakeShows(s, from, until, TakeAll(rest, from, until).value, k); }
        }
      }
    }
  }

  lemma TakeGrows(s: Series, from: int, until: int, p: Progress)
    ensures var r := Take(s, from, until, p); r.Ok? ==> p.state.events <= r.value.state.events
  {
    if IsScanned(s) {
      ScanShows(s, from, until, ScanEndOf(s.exceptions, from, until), 0, p.state);
    }
  }

  lemma TakeShows(s: Series, from: int, until: int, p: Progress, k: nat)
    requires Take(s, from, until, p).Ok? && |p.state.events| <= k < |Take(s, from, until, p).value.state.events|
    ensures Shows(s, Take(s, from, until, p).value.state.events[k])
  {
    if IsScanned(s) {
      ScanShows(s, from, until, ScanEndOf(s.exceptions, from, until), 0, p.state);
    }
  }

  // ----- the whole import -----

  /** The warnings without repetition, in the order of their first appearance. */
  function Unique(warnings: seq<string>): (r: seq<string>)
    ensures forall w :: w in r <==> w in warnings
    ensures forall i, j :: 0 <= i < j < |r| ==> r[i] != r[j]
  {
    if warnings == [] then []
    else
      var rest := Unique(warnings[..|warnings| - 1]);
      var last := warnings[|warnings| - 1];
      if last in rest then rest else rest + [last]
  }

  const OUTSIDE_MESSAGE := "Occurrences outside the selected date range were not imported."

  /** One series of the file: an error of its own is reported, a fatal one is passed on. */
  method ImportSeries(s: Series, from: int, until: int, st: State, warnings: seq<string>)
    returns (next: State, told: seq<string>, failed: Option<string>)
    ensures Take(s, from, until, Progress(st, warnings))
            == if failed.Some? then Err(failed.value) else Ok(Progress(next, told))
  {
    hide Contains, Scan;
    next, told, failed := st, warnings, None;
    var outcome := Finished;
    if !HasUid(s) {
      outcome := Thrown(UID_MESSAGE);
    } else if s.setup.Some? {
      outcome := Thrown(s.setup.value);
    } else if s.cancelled {
      told := told + [s.title + ": " + CANCELLED_MESSAGE];
    } else {
      var end := ScanEnd(s.exceptions, from, until);
      if s.rules.Some? {
        outcome := Thrown(s.rules.value);
      } else {
        next, outcome := ScanSeries(s, from, until, end, st);
      }
    }
    if outcome.Thrown? {
      if IsFatal(outcome.message) {
        failed := Some(outcome.message);
      } else {
        told := told + [s.title + ": " + outcome.message];
      }
    }
  }

  /** Files and ranges that are scanned at all. */
  predicate IsAcceptable(file: File, from: int, until: int) {
    && file.isText && file.units <= MAX_SIZE && file.octets <= MAX_SIZE && !file.isLink
    && file.parses && file.isCalendar && file.isClosed
    && from < until <= from + MAX_RANGE_DAYS && 0 < file.definitions <= MAX_DEFINITIONS
  }

  /** The refusal that stands first in the order of the checks. */
  predicate IsRefusal(file: File, from: int, until: int, message: string) {
    var small := file.isText && file.units <= MAX_SIZE && file.octets <= MAX_SIZE;
    var fits := small && from < until <= from + MAX_RANGE_DAYS;
    var text := fits && !file.isLink;
    var whole := text && file.parses && file.isCalendar && file.isClosed;
    || (message == SIZE_MESSAGE && !small)
    || (message == RANGE_MESSAGE && small && !fits)
    || (message == LINK_MESSAGE && fits && file.isLink)
    || (message == SYNTAX_MESSAGE && text && !file.parses)
    || (message == INCOMPLETE_MESSAGE && text && file.parses && !whole)
    || (message == NO_EVENTS_MESSAGE && whole && file.definitions == 0)
    || (message == DEFINITIONS_MESSAGE && whole && file.definitions > MAX_DEFINITIONS)
  }

  /** The checks in front of the scan, in their order. */
  method Refuse(file: File, from: int, until: int) returns (message: Option<string>)
    ensures message.None? <==> IsAcceptable(file, from, until)
    ensures message.Some? ==> IsRefusal(file, from, until, message.value)
  {
    if !file.isText || file.units > MAX_SIZE || file.octets > MAX_SIZE {
      return Some(SIZE_MESSAGE);
    }
    if until <= from || until - from > MAX_RANGE_DAYS {
      return Some(RANGE_MESSAGE);
    }
    if file.isLink {
      return Some(LINK_MESSAGE);
    }
    if !file.parses {
      return Some(SYNTAX_MESSAGE);
    }
    if !file.isCalendar || !file.isClosed {
      return Some(INCOMPLETE_MESSAGE);
    }
    if file.definitions == 0 {
      return Some(NO_EVENTS_MESSAGE);
    }
    if file.definitions > MAX_DEFINITIONS {
      return Some(DEFINITIONS_MESSAGE);
    }
    return None;
  }

  /** Imports the series of a file. */
  method Parse(file: File, series: seq<Series>, from: int, until: int) returns (r: Result<Import, string>)
    ensures r.Ok? <==> IsAcceptable(file, from, until) && TakeAll(series, from, until).Ok?
    ensures !IsAcceptable(file, from, until) ==> r.Err? && IsRefusal(file, from, until, r.error)
    ensures r.Ok? ==> DistinctIds(r.value.events) && Ascending(r.value.events) && |r.value.events| <= MAX_EVENTS
    ensures r.Ok? ==> forall k :: 0 <= k < |r.value.events| ==> IsWanted(r.value.events[k], from, until)
    ensures r.Ok? ==> r.value.events == SortByStart(TakeAll(series, from, until).value.state.events)
    ensures r.Ok? ==> r.value.outside == TakeAll(series, from, until).value.state.outside
    ensures r.Ok? ==> |r.value.events| + r.value.outside <= TakeAll(series, from, until).value.state.steps <= MAX_STEPS
    ensures r.Ok? ==> forall w :: w in r.value.warnings <==>
                        w in TakeAll(series, from, until).value.warnings || (r.value.outside > 0 && w == OUTSIDE_MESSAGE)
    ensures r.Err? && IsAcceptable(file, from, until) ==>
              r.error == TakeAll(series, from, until).error && IsFatal(r.error)
  {
    var refused := Refuse(file, from, until);
    if refused.Some? {
      return Err(refused.value);
    }
    var st := State([], {}, 0, 0);
    var warnings := [];
    for i := 0 to |series|
      invariant TakeAll(series[..i], from, until) == Ok(Progress(st, warnings))
    {
      hide Take;
      assert series[..i + 1][..i] == series[..i];
      var failed;
      st, warnings, failed := ImportSeries(series[i], from, until, st, warnings);
      if failed.Some? {
        FailureStays(series, from, until, i + 1);
        return Err(failed.value);
      }
    }
    assert series[..|series|] == series;
    TakeAllKeeps(series, from, until);
    SortSorts(st.events);
    SortDistinct(st.events);
    var events := SortByStart(st.events);
    assert forall k :: 0 <= k < |events| ==> events[k] in events;
    if st.outside > 0 {
      warnings := warnings + [OUTSIDE_MESSAGE];
    }
    return Ok(Import(events, Unique(warnings), st.outside));
  }

  lemma {:induction false} FailureStays(series: seq<Series>, from: int, until: int, i: nat)
    requires i <= |series| && Before(series, from, until, i).Err?
    ensures TakeAll(series, from, until) == Before(series, from, until, i)
    decreases |series|
  {
    if i == |series| {
      assert series[..i] == series;
    } else {
      assert series[..|series| - 1][..i] == series[..i];
      FailureStays(series[..|series| - 1], from, until, i);
    }
  }
}
