# Models of the Kordi backend and calendar code

This project models five parts of the repository and proves what they promise.

- **Hosted login sessions** (`LoginRecord`, `LoginStore`, `LoginRuns`, `LoginManager`). Client calls
  and callbacks of login flows interleave freely; each runs without interruption. `LoginRecords` and
  `LoginStores` give every transition as a function on values, keep every record ever started, and
  prove the invariant of each step. `LoginRuns` draws the safety statements over whole runs.
  `LoginSessionRecord` and `LoginSessionManager` are the mutable objects; each method is proved to
  take the abstract state where the function takes it.
- **The calendar kernel** (`CalendarRules`, `Time`, `Duration`, `Weekday`, `Recurrence`, `TextValue`,
  `ContentLine`): dates with lazily normalised fields, durations, the memoised weekday, the iterator
  for daily and weekly rules, text escaping and line folding of RFC 5545.
- **The calendar importer** (`Importer`): the scan of each series with its limits.
- **Outbound requests** (`OutboundGuard`, `Address`): the redirect loop of the guarded fetch, the
  parser of IPv4 and IPv6 text, and the classifier that looks through embedded IPv4 addresses.
- **Production promotion** (`Promotion`): setting images service by service, with a restore, when any
  command may fail before or after its effect.

`ical.js` is one minified line, so every row about it cites that line. Its years up to 1752 follow the
Julian leap rule; day counts here use the rules of the code, and the host's Gregorian clock, which drifts
from them before 1753, is modelled beside them.

## What the code does not do

Some properties one would expect do not hold. Each has an input that shows it and the exact condition.

- A list of texts survives joining and splitting exactly when no value but the last ends in a backslash
  (`TextValues.SplitJoin`); two values, the first a lone backslash, do not
  (`TextValues.BackslashMergesValues`).
- A folded continuation line can have 76 octets, one more than section 3.1 of RFC 5545 allows. For every
  line the folding keeps to the standard exactly when the continuations of the standard's own folding leave
  no room for the next character, the leading space not counted (`ContentLines.FoldWithinStandard`); at most 146 octets always do (`ContentLines.ShortWithinStandard`),
  147 may not (`ContentLines.TightLineExceeds`), and lines of characters of one size do exactly as
  `ContentLines.UniformWithinStandard` says.
- The weekday formula moves wrongly across the end of a February exactly where its leap rule differs from
  the code's (`Weekdays.ZellerStep`), as in 1700 (`Weekdays.FebruaryMisjudged`).
- The weekday memo answers rightly exactly when the date first asked under a key has the same weekday
  (`Weekdays.WeekdayCache.DayOfWeek`); keys collide exactly for years that differ by a multiple of 2^20
  (`Weekdays.KeyCollision`), and `Weekdays.RememberedWrongly` gets a wrong answer.
- A duration added to a copy of a value is not always the difference afterwards: a date drops the time of
  day, gains the days its stored clock carries, and before 1753 the host's clock drifts. It is exactly when
  what is gained is the change of drift between the two day counts (`CalendarTime.ElapsedAfterAdding`, with
  the drift in closed form in `CalendarRules.DriftOfMonth`). `CalendarTime.HourAddedToDate` loses an hour,
  `CalendarRules.HostRepeatsDay` a day.
- A recurrence does not list every day before 1753: from year 100 on an occurrence is passed over exactly
  when the rule is daily and the occurrence before it is a 29 February only the Julian rule has
  (`Recurrence.RecurIterator.Next`), as `Recurrence.PassesOverADay` shows for every such year.
- A recurrence whose DTSTART is not yet normalised starts on DTSTART exactly when normalising carries
  nothing into the year beyond what a copy carries (`Recurrence.RecurIterator.constructor`). From month 13 of
  any year it starts a year early (`Recurrence.StartsAYearEarly`).
- Redirects with 307 and 308 keep the body sent except exactly when init says the body is null over a Request
  with a stream of its own: the first request carries the stream, the next ones nothing
  (`OutboundGuard.PreservingRedirects`, with the input `OutboundGuard.NullBodyDropsStream`).
- A promotion that fails in or after its rollout, under a schema that allows a restore, is restored exactly
  when writing the failure down works, as that call stands in front of the restore, no command of the restore
  fails and the health address answers one of its probes (`Promotion.Deploy`). In
  `Promotion.UnwrittenFailure` no file can be written and the new images keep running; in
  `Promotion.StuckRestore` the failure is written and the restore fails.

## Model

| member | source | states |
|---|---|---|
| LoginRuns.ReachableInv | experiments/omp-provider-routing/login-session-store.ts:46-186 | In every state of every interleaving of client calls and flow callbacks: the map respects the cap and holds exactly the live records, and each record meets `RecordInv`: awaiting input exactly when a request is pending, aborted exactly when final, a live record has a credential exactly when completed, a forgotten one has none and is final |
| LoginRuns.RunEvolves | experiments/omp-provider-routing/login-session-store.ts:212-344 | Along every run versions never fall, failed and cancelled are final, completed can only become cancelled, settled requests and delivered credentials never change, a forgotten record never returns, hand-outs are only appended |
| LoginRuns.HandedOnce | experiments/omp-provider-routing/login-session-store.ts:291-302 | Over every run no record is handed out twice, and each hand-out is the credential, endpoint, id and store provider of a forgotten, completed record |
| LoginRuns.DeliveredByOwnFlow | experiments/omp-provider-routing/login-session-store.ts:236-243 | A credential a record delivered was returned by a step of the flow of that very record with a usable result, and the endpoint delivered with it is the one that step looked up |
| LoginRuns.HandedCameFromOwnFlow | experiments/omp-provider-routing/login-session-store.ts:236-243 | Over every run from an empty store each credential handed out and the endpoint handed out with it were returned together by the flow of its own record, even when other sessions use the same id before or after |
| LoginRuns.NeverHandedLater | experiments/omp-provider-routing/login-session-store.ts:291-344 | A record that is cancelled, failed or forgotten and was not handed out never is, whatever follows |
| LoginRuns.CancelledNeverHanded | experiments/omp-provider-routing/login-session-store.ts:280-288 | Cancelling answers exactly when the id names an active session, leaves it failed or cancelled, and its credential is never handed out afterwards |
| LoginRuns.ExpiredNeverHanded | experiments/omp-provider-routing/login-session-store.ts:305-313 | A session a sweep expires is never handed out |
| LoginRuns.ClosedNeverHanded | experiments/omp-provider-routing/login-session-store.ts:316-322 | After a close only sessions started later are handed out |
| LoginRuns.LateResultInert | experiments/omp-provider-routing/login-session-store.ts:135-151 | A result or an error of the flow of a forgotten session leaves the whole store as it is, also when its id is in use again |
| LoginRuns.ClaimExactlyOnce | experiments/omp-provider-routing/login-session-store.ts:291-302 | A claim succeeds exactly on a completed session, gives the credential and the endpoint its flow delivered, forgets it, and a second claim is answered with not found |
| LoginRuns.VersionDeterminesSnapshot | experiments/omp-provider-routing/login-session-store.ts:79-99 | Between two moments of a run equal versions of a record mean equal snapshots, and versions never fall |
| LoginRuns.NoUpdateLost | experiments/omp-provider-routing/login-session-store.ts:95-114 | After a visible change nobody waits for an older version, and a final session keeps nobody waiting |
| LoginRuns.PollWaitsForNews | experiments/omp-provider-routing/login-session-store.ts:252-261 | A poll waits only if it may, the session goes on and the caller knows the present version; otherwise it answers with the present snapshot |
| LoginRuns.AnswersTouchOneSession | experiments/omp-provider-routing/login-session-store.ts:252-302 | Beside the sweep, a poll, input, cancellation or claim changes no session but the one of its id, and renews the activity of that one unless it is claimed |
| LoginRuns.InputResolvesNewest | experiments/omp-provider-routing/login-session-store.ts:264-277 | An input is accepted exactly when none of the listed refusals applies; it resolves the newest request with its text and no other, and a refused one changes only the activity time |
| LoginRuns.RequestsOverRuns | experiments/omp-provider-routing/login-session-store.ts:154-185 | Over every run published requests are resolved, rejected or the awaited one; each settles at most once; none is open in a final state |
| LoginStores.SweepKeeps | experiments/omp-provider-routing/login-session-store.ts:305-313 | A sweep keeps exactly the sessions active within the timeout, unchanged, and keeps the invariant |
| LoginStores.CloseKeeps | experiments/omp-provider-routing/login-session-store.ts:316-322 | A close leaves no session; every record is final and holds no credential |
| LoginStores.OldestIsLeast | experiments/omp-provider-routing/login-session-store.ts:330-337 | The session chosen for eviction is the first of the failed or cancelled ones that is least recently active; none is chosen exactly when there is none |
| LoginStores.EvictKeeps | experiments/omp-provider-routing/login-session-store.ts:330-337 | Eviction removes at most one session, the first failed or cancelled one of least activity, and nothing exactly when there is none |
| LoginStores.GetKeeps | experiments/omp-provider-routing/login-session-store.ts:339-344 | A handler meets only a live session of that id that was active within the timeout; not found means there is none |
| LoginStores.StartKeeps | experiments/omp-provider-routing/login-session-store.ts:212-231 | A refused start leaves the swept store as it is; lack of room is reported exactly when the map is full and nothing may be evicted; an admitted start adds one new record after the others |
| LoginStores.ClaimKeeps | experiments/omp-provider-routing/login-session-store.ts:291-302 | A claim keeps the invariant and records exactly one hand-out when it succeeds |
| LoginStores.ReactKeeps | experiments/omp-provider-routing/login-step-bridge.ts:57-89 | Every callback keeps the invariant of its record; on a forgotten record it changes at most the count of paste requests |
| LoginStores.ApplyKeeps | experiments/omp-provider-routing/login-session-store.ts:188-344 | Every step of a client or a flow keeps the invariant of the store |
| LoginStores.PollKeeps | experiments/omp-provider-routing/login-session-store.ts:252-261 | A poll keeps the invariant and hands nothing out |
| LoginStores.InputKeeps | experiments/omp-provider-routing/login-session-store.ts:264-277 | An input keeps the invariant and hands nothing out |
| LoginStores.CancelCallKeeps | experiments/omp-provider-routing/login-session-store.ts:280-288 | A cancellation keeps the invariant and hands nothing out |
| LoginRecords.RequestsConserved | experiments/omp-provider-routing/login-session-store.ts:154-185 | Requests published = resolved + rejected + one if the session awaits input |
| LoginRecords.CompleteKeeps | experiments/omp-provider-routing/login-session-store.ts:135-140 | Completing keeps the record invariant and moves the record only forwards |
| LoginRecords.FailKeeps | experiments/omp-provider-routing/login-session-store.ts:148-151 | Failing keeps the record invariant and moves the record only forwards |
| LoginRecords.CancelKeeps | experiments/omp-provider-routing/login-session-store.ts:279-288 | Cancelling leaves the record failed or cancelled, without a credential and without an open request |
| LoginRecords.AwaitInputKeeps | experiments/omp-provider-routing/login-session-store.ts:154-185 | A new request supersedes and rejects the pending one; a refused one changes nothing |
| LoginRecords.AbortRequestKeeps | experiments/omp-provider-routing/login-session-store.ts:169-178 | The abort of one request rejects that request only and returns an awaiting session to running |
| LoginRecords.SetStepKeeps | experiments/omp-provider-routing/login-session-store.ts:116-122 | A new step of a session that goes on is shown and raises the version; the last open-url step stays at hand |
| LoginRecords.AcceptInputKeeps | experiments/omp-provider-routing/login-session-store.ts:272-275 | Accepting resolves the last request and no other |
| LoginRecords.ManualCodeKeeps | experiments/omp-provider-routing/login-step-bridge.ts:79-84 | Asking for a pasted code is counted; a visible change means a new request that takes no blank answer |
| LoginRecords.LoginSessionRecord.Bump | experiments/omp-provider-routing/login-session-store.ts:95-99 | The version rises by one, the activity time is set and every waiter is gone, through the loop over a copy of the waiters |
| LoginRecords.LoginSessionRecord.SetStep | experiments/omp-provider-routing/login-session-store.ts:116-122 | Accepted exactly while the session goes on; the new state is the specified one |
| LoginRecords.LoginSessionRecord.Finish | experiments/omp-provider-routing/login-session-store.ts:125-133 | The final status and error are set, the flow aborted and the pending request rejected |
| LoginRecords.LoginSessionRecord.Complete | experiments/omp-provider-routing/login-session-store.ts:135-140 | Stores the credential only in a live session that goes on |
| LoginRecords.LoginSessionRecord.Fail | experiments/omp-provider-routing/login-session-store.ts:148-151 | Fails only a live session that goes on |
| LoginRecords.LoginSessionRecord.AwaitInput | experiments/omp-provider-routing/login-session-store.ts:154-185 | Publishes the request the specification names, after rejecting the pending one |
| LoginRecords.LoginSessionRecord.ManualCode | experiments/omp-provider-routing/login-step-bridge.ts:79-84 | Counts the request and publishes the first or the repeated guide |
| LoginRecords.LoginSessionRecord.AbortRequest | experiments/omp-provider-routing/login-session-store.ts:169-178 | Reacts to the abort of one request as specified |
| LoginManagers.LoginSessionManager.Sweep | experiments/omp-provider-routing/login-session-store.ts:305-313 | The loop over a copy of the map takes the store to the specified sweep of it |
| LoginManagers.LoginSessionManager.Close | experiments/omp-provider-routing/login-session-store.ts:316-322 | The loop over a copy of the map takes the store to the specified close of it |
| LoginManagers.LoginSessionManager.EvictFinishedSession | experiments/omp-provider-routing/login-session-store.ts:330-337 | The scan for the least active ended session takes the store to the specified eviction |
| LoginManagers.LoginSessionManager.Get | experiments/omp-provider-routing/login-session-store.ts:339-344 | Sweeps, then finds the very record the store holds under the id |
| LoginManagers.LoginSessionManager.Start | experiments/omp-provider-routing/login-session-store.ts:212-231 | Same new store, same refusal; an admitted start returns a fresh record that is the newest |
| LoginManagers.LoginSessionManager.Poll | experiments/omp-provider-routing/login-session-store.ts:252-261 | Same new store and same answer as specified |
| LoginManagers.LoginSessionManager.Input | experiments/omp-provider-routing/login-session-store.ts:264-277 | Same new store and same answer as specified |
| LoginManagers.LoginSessionManager.Cancel | experiments/omp-provider-routing/login-session-store.ts:280-288 | Same new store and same answer as specified |
| LoginManagers.LoginSessionManager.Claim | experiments/omp-provider-routing/login-session-store.ts:291-302 | Same new store as specified and the credential of the specified hand-out |
| LoginManagers.LoginSessionManager.Forget | experiments/omp-provider-routing/login-session-store.ts:324-327 | Deleting by id removes that very record from the map |
| LoginManagers.LoginSessionManager.FlowCallback | experiments/omp-provider-routing/login-session-store.ts:233-247 | A callback of a flow, of a held or a forgotten session, takes the store to the specified step |
| LoginManagers.DeleteById | experiments/omp-provider-routing/login-session-store.ts:324-327 | Deleting an id from the map is removing one record, because ids of held sessions differ |
| CalendarRules.YearStartStep | shared/digest/ical.js:5 | The closed form of the day count of a year adds up the code's own year lengths, over all years |
| CalendarRules.MonthStartStep | shared/digest/ical.js:5 | Months follow each other by the code's own month lengths |
| CalendarRules.DayNumberInjective | shared/digest/ical.js:5 | A day count names at most one date |
| CalendarRules.DayNumberOrder | shared/digest/ical.js:5 | Day counts order dates as year, month and day do |
| CalendarRules.GregorianFrom1753 | shared/digest/ical.js:5 | From 1753 on the code's calendar and the Gregorian one differ by thirteen days |
| CalendarRules.DriftOfMonth | shared/digest/ical.js:5 | The code's day count runs ahead of `Date.UTC` by the same number of days throughout a month: 13 from 1753 on, before that the century leap days only the Julian rule has |
| CalendarRules.DriftOnDate | shared/digest/ical.js:5 | The drift of a day count, found by walking the months from any month, is that of the month of its date |
| CalendarRules.DriftStep | shared/digest/ical.js:5 | From year 100 on the drift grows by one exactly behind a 29 February only the Julian rule has |
| CalendarRules.HostOrder | shared/digest/ical.js:5 | From year 100 on the host clock never puts a later day before an earlier one, and gives two days one time exactly when the first is such a 29 February and the second the next day |
| CalendarRules.HostRepeatsDay | shared/digest/ical.js:5 | `Date.UTC` gives 29 February 1700 and 1 March 1700 the same day |
| CalendarTime.Time.Adjust | shared/digest/ical.js:5 | For every field values and every offset the instant rises by exactly the offset, the result is in range, and both month loops end; of a date only the days move |
| CalendarTime.Time.AdjustClock | shared/digest/ical.js:5 | The carries of seconds, minutes and hours lose nothing; the clock ends in range |
| CalendarTime.Time.WalkMonths | shared/digest/ical.js:5 | Moving whole months between day and month keeps the day count and ends at a real date |
| CalendarTime.Time.Normalise | shared/digest/ical.js:5 | Normalising keeps the instant and brings every field into range |
| CalendarTime.Time.Get | shared/digest/ical.js:5 | Reading normalises first and keeps the instant |
| CalendarTime.Time.Set | shared/digest/ical.js:5 | Writing changes one field and leaves the carry to the next read |
| CalendarTime.Time.SetIsDate | shared/digest/ical.js:5 | Becoming a date carries the clock into the day |
| CalendarTime.Time.Clone | shared/digest/ical.js:5 | The copy has the same stored fields; a date with a stored clock out of range carries it into its day |
| CalendarTime.Time.ToUnixTime | shared/digest/ical.js:5 | The remembered Unix time is the one `Date.UTC` gives the present fields, years 0 to 99 shifted to 1900 to 1999 included |
| CalendarTime.Time.AddDuration | shared/digest/ical.js:5 | The instant rises by the seconds of the duration; of a date by its days and weeks |
| CalendarTime.Time.SubtractDate | shared/digest/ical.js:5 | The difference is that of the Unix times: the seconds between the instants less the change of drift, and just the seconds between them from 1753 on |
| CalendarTime.Time.Compare | shared/digest/ical.js:5 | The comparison is the order of the Unix times, and from 1753 on that of the instants |
| CalendarTime.Time.DayOfYear | shared/digest/ical.js:5 | The ordinal lies in the year and counts its days |
| CalendarTime.Time.DayOfWeek | shared/digest/ical.js:5 | The answer is the weekday of the date first asked under the key; within 2^20 years it is the formula's, and from 1753 on that counts days modulo seven |
| CalendarTime.Time.FromDayOfYear | shared/digest/ical.js:5 | For every integer n the result is the day n of the year, in another year exactly when n is no ordinal of it |
| CalendarTime.Time.SetOrdinal | shared/digest/ical.js:5 | The month found from December down is the one the ordinal lies in |
| CalendarTime.InstantDetermines | shared/digest/ical.js:5 | Two values in range at one instant are the same value |
| CalendarTime.WithinYear | shared/digest/ical.js:5 | The n-th day of a year lies in that year exactly when n is an ordinal of it, and then its ordinal is n |
| CalendarTime.ElapsedAfterAdding | shared/digest/ical.js:5 | For every value, normalised or not: adding a duration to a copy and taking the difference gives its seconds back exactly when what is gained beside it equals the change of drift between the day count before and after; from 1753 on exactly when nothing is gained. Drift and gain are those of the value and duration given |
| CalendarTime.NothingGained | shared/digest/ical.js:5 | With the clock in range nothing is gained exactly by non-dates and durations without a time of day |
| CalendarTime.HourAddedToDate | shared/digest/ical.js:5 | An hour added to 1 January 2024 as a date is lost |
| CalendarTime.HostTimeOf | shared/digest/ical.js:5 | The Unix time and the instant differ by the drift, which is constant from 1753 on |
| CalendarTime.DaysApart | shared/digest/ical.js:5 | From year 100 on values whole days apart are in order on the host clock, and have one time only if equal or a repeated day and the next |
| CalendarDuration.Duration.FromSeconds | shared/digest/ical.js:5 | For every integer the parts convert back to it and are in range, with weeks only for whole weeks |
| CalendarDuration.Duration.ToString | shared/digest/ical.js:5 | The text built up piece by piece is the specified one |
| CalendarDuration.Duration.FromString | shared/digest/ical.js:5 | The left-to-right reading accepts and returns what the specified parser does |
| CalendarDuration.ParsePrinted | shared/digest/ical.js:5 | Printing and parsing keeps the seconds, for all integer parts, negative ones and zero included |
| CalendarDuration.ParseDecimal | shared/digest/ical.js:5 | The number reader undoes the decimal printer |
| Weekdays.ZellerCountsDays | shared/digest/ical.js:5 | From 1753 on the formula is the day count modulo seven |
| Weekdays.ZellerStep | shared/digest/ical.js:5 | Over all years the formula moves by one weekday from day to day, except exactly at the end of a February whose length it misjudges |
| Weekdays.FebruaryMisjudged | shared/digest/ical.js:5 | 29 February 1700 and the day after it get the same weekday |
| Weekdays.KeyCollision | shared/digest/ical.js:5 | Two dates share a key exactly when they differ only in the year, by a multiple of 2^20 |
| Weekdays.KeyInjective | shared/digest/ical.js:5 | Dates less than 2^20 years apart have different keys |
| Weekdays.CollisionMatters | shared/digest/ical.js:5 | Two dates share a key and differ in weekday |
| Weekdays.WeekdayCache.DayOfWeek | shared/digest/ical.js:5 | The answer is the weekday of the date first asked under the key, so it is right exactly when that has the same weekday, as it has within 2^20 years |
| Weekdays.RememberedWrongly | shared/digest/ical.js:5 | The memo says Saturday for a Monday of the year 1050576 |
| Recurrence.RecurIterator.Next | shared/digest/ical.js:5 | From year 100 on: the n-th occurrence counted of a DAILY or WEEKLY rule is DTSTART plus n intervals, through the clock chain and the lazily normalised setters; each call counts one, or two exactly when a daily rule stands on a repeated day, which never happens from 1753 on; nothing raises |
| Recurrence.RecurIterator.NextAgain | shared/digest/ical.js:5 | The call with the retry flag raises exactly when it meets a repetition itself; the retry never does |
| Recurrence.RecurIterator.Seek | shared/digest/ical.js:5 | The inner loop stops at the first value tried, one interval on, since that passes the rules and is not before DTSTART |
| Recurrence.RecurIterator.constructor | shared/digest/ical.js:5 | For every DTSTART, normalised or not: the copy is DTSTART normalised with the year of the copied fields; the iterator stands on DTSTART exactly when that is its year (and the year is at least 100, where Next is stated) |
| Recurrence.RecurIterator.Init | shared/digest/ical.js:5 | The default parts hold the clock of DTSTART, and every field of the copy but the year is that of DTSTART normalised |
| Recurrence.RecurIterator.NextGeneric | shared/digest/ical.js:5 | With one listed second, minute and hour the clock wraps at once and stays |
| Recurrence.RecurIterator.Advance | shared/digest/ical.js:5 | One step adds exactly the interval |
| Recurrence.RecurIterator.IncrementMonthday | shared/digest/ical.js:5 | Adding days one by one adds that many days and keeps the clock |
| Recurrence.RecurIterator.CheckContractingRules | shared/digest/ical.js:5 | Without BY parts every value passes |
| Recurrence.PassesOverADay | shared/digest/ical.js:5 | For every year with a 29 February of the Julian rule only: a daily rule from that day gives 2 March as its second value |
| Recurrence.StartsAYearEarly | shared/digest/ical.js:5 | From month 13 of any year, which is January of the next, the iterator starts in January of the year |
| TextValues.UnescapeEscape | shared/digest/ical.js:5 | Unescaping undoes escaping, for every text |
| TextValues.MultiValue | shared/digest/ical.js:5 | The printer loop joins the escaped values |
| TextValues.UnescapedIndexOf | shared/digest/ical.js:5 | The first delimiter without a backslash in front, or -1 when there is none |
| TextValues.ParseMultiValue | shared/digest/ical.js:5 | The reader loop gives the unescaped pieces between those delimiters |
| TextValues.SplitJoin | shared/digest/ical.js:5 | Joining and splitting returns the list exactly when no value but the last ends in a backslash |
| TextValues.BackslashMergesValues | shared/digest/ical.js:5 | A lone backslash and another value come back as one value |
| ContentLines.FoldLine | shared/digest/ical.js:5 | The loop ends and writes the chunks of the line behind line breaks |
| ContentLines.ChunksKeepLine | shared/digest/ical.js:5 | The chunks are the line again; each holds at most 75 octets, is as long as it can be, and splits no surrogate pair |
| ContentLines.EachLine | shared/digest/ical.js:5 | The reader loop reports the logical lines of the text |
| ContentLines.UnfoldFold | shared/digest/ical.js:5 | Folding a list of lines and reading it back gives every line but the last unchanged and the last trimmed |
| ContentLines.ReportedLines | shared/digest/ical.js:5 | Whatever the text, no reported line is empty or holds a newline |
| ContentLines.FoldWithinStandard | shared/digest/ical.js:5 | For every line, the physical lines keep to 75 octets with the leading space exactly when no continuation of the standard's own folding could take the first character of the next and keep to 75 octets without the space; then the two foldings are the same |
| ContentLines.ShortWithinStandard | shared/digest/ical.js:5 | Lines of at most 146 octets keep to the standard |
| ContentLines.TightLineExceeds | shared/digest/ical.js:5 | A line of 147 octets that does not |
| ContentLines.UniformWithinStandard | shared/digest/ical.js:5 | Lines of characters of two or four octets always keep to the standard, those of one or three exactly below 150 octets |
| Addresses.ParseIPv4Exact | experiments/omp-provider-routing/custom-endpoint.ts:53-57 | A text parses to four octets exactly when it is their dotted form |
| Addresses.ParseHexExact | experiments/omp-provider-routing/custom-endpoint.ts:71-80 | Hexadecimal text parses to eight groups exactly when it is their full form or a form with one double colon |
| Addresses.ParseIPv6Exact | experiments/omp-provider-routing/custom-endpoint.ts:60-81 | A text parses to eight groups exactly when it is one of their textual forms, dotted tail included |
| Addresses.ParseIPv6Range | experiments/omp-provider-routing/custom-endpoint.ts:60-81 | Success gives eight groups below 65536 |
| Addresses.FullMixed | experiments/omp-provider-routing/custom-endpoint.ts:64-70 | Six groups and a dotted tail are a form of the address |
| Addresses.CompressedMixed | experiments/omp-provider-routing/custom-endpoint.ts:64-80 | Groups around a double colon and a dotted tail are a form of the address |
| Addresses.VerdictOfValue | experiments/omp-provider-routing/custom-endpoint.ts:132-157 | Every text of an IPv6 value gets the verdict of the value if the host takes it for an address, and is blocked if not |
| Addresses.UnparsedIsBlocked | experiments/omp-provider-routing/custom-endpoint.ts:150-153 | A text that is no form of an address is blocked |
| Addresses.EmbeddingExact | experiments/omp-provider-routing/custom-endpoint.ts:106-114 | An IPv4 address is found in an IPv6 value exactly when the value carries it as compatible, mapped, NAT64 or 6to4 |
| Addresses.EmbeddingsAgree | experiments/omp-provider-routing/custom-endpoint.ts:106-157 | An IPv4 address and a text of an address that embeds it get the same verdict if the host takes both for addresses; one it does not take is blocked |
| Addresses.MappedText | experiments/omp-provider-routing/custom-endpoint.ts:106-157 | The mapped spelling of a dotted address gets its verdict |
| Addresses.BlockedPrefixes | experiments/omp-provider-routing/custom-endpoint.ts:83-99 | The blocked IPv4 addresses are thirteen whole prefixes |
| Addresses.BlockedIPv6Prefixes | experiments/omp-provider-routing/custom-endpoint.ts:116-126 | Of the IPv6 addresses that embed no IPv4 address five whole prefixes are blocked |
| OutboundGuard.GuardedFetch | experiments/omp-provider-routing/outbound-guard.ts:95-126 | For every world: each request is directly preceded by a successful validation of its target, requests follow each other by the redirect rules, at most maxRedirects + 1 are sent (one in manual and error mode), and each outcome has its reason: a URL that does not parse or resolve, a refused target that a redirect named, a stream the hop would repeat, the limit, the mode, or the network |
| OutboundGuard.RedirectLoop | experiments/omp-provider-routing/outbound-guard.ts:105-125 | The loop keeps all this from the first answer on |
| OutboundGuard.FollowRedirect | experiments/omp-provider-routing/outbound-guard.ts:112-123 | One hop: it stops only when the location does not resolve, the method stays and the body cannot be repeated, the resolved target is refused, or the network fails |
| OutboundGuard.ValidateAndSend | experiments/omp-provider-routing/outbound-guard.ts:113-123 | Nothing is sent to a target that was not admitted |
| OutboundGuard.RedirectedAttempt | experiments/omp-provider-routing/outbound-guard.ts:66-82 | The next attempt is the one the Fetch Standard names; a streamed body that would have to be repeated is refused |
| OutboundGuard.Without | experiments/omp-provider-routing/outbound-guard.ts:74-79 | Deleting header names one by one removes exactly those |
| OutboundGuard.HeadersShrink | experiments/omp-provider-routing/outbound-guard.ts:66-82 | Along a chain headers are only removed |
| OutboundGuard.CredentialsStayDropped | experiments/omp-provider-routing/outbound-guard.ts:78-80 | Once a hop changes origin no later request carries a credential header, even back at the first origin |
| OutboundGuard.BodyStaysDropped | experiments/omp-provider-routing/outbound-guard.ts:70-74 | Once a request has become GET no later one has a body or body headers |
| OutboundGuard.StreamSentOnce | experiments/omp-provider-routing/outbound-guard.ts:75-77 | A stream is sent with the first request only |
| OutboundGuard.PreservingRedirects | experiments/omp-provider-routing/outbound-guard.ts:66-82 | Chains of 307 and 308 keep the method, and the body sent exactly unless init sets a null body over the Request's own stream; then the first request carries the stream and the others nothing |
| OutboundGuard.NullBodyDropsStream | experiments/omp-provider-routing/outbound-guard.ts:102-117 | A POST that sends a stream and, after a 307, no body |
| Promotion.Deploy | scripts/backend_deploy_production.py:84-138 | With any command failing before or after its effect: services on new images stand in front of those on old ones in every state, forwards and on a restore; the cluster changes only after the bundle, the backup and every import were found good; both sets of images are then in the store; a failure has its reason in the log, or a Deployment or archive that does not resolve; under a schema that allows it, a failed rollout is recorded as restored exactly when writing the failure down worked, no command of the restore failed and a probe of it was answered, and as a failed restore exactly when the write worked and one of these did not; forward-only never restores; the record of a restore means all services are back; a normal return means all run the new images; if every command works and the images resolve, the promotion completes |
| Promotion.Promote | scripts/backend_deploy_production.py:95-120 | The body of the try block: the stage at which it raised, what was checked before any change, and the reason of every raise in the log |
| Promotion.Prepare | scripts/backend_deploy_production.py:96-115 | Up to the rollout no Deployment changes; it is reached only with bundle, backup and imports found good and both sets of images held under their digests; it is not reached only by a failed command, a missing image or an archive without the approved digest |
| Promotion.VerifyInputs | scripts/backend_deploy_production.py:95-100 | Success means the bundle and the backup were verified, and the backup made first if asked for |
| Promotion.CapturePrevious | scripts/backend_deploy_production.py:49-64 | The names by digest of the running images, each in the store; a missing Deployment changes nothing; names by digest stay true |
| Promotion.ImportOne | scripts/backend_deploy_production.py:107-113 | An import passes only if its tag now has the approved digest, and leaves a name by digest; such names stand for their digest afterwards if they did before |
| Promotion.ImportApproved | scripts/backend_deploy_production.py:105-113 | The names are those of the approved digests, all in the store, after every archive was imported |
| Promotion.TargetIsPinned | scripts/backend_deploy_production.py:107-113 | The approved names then stand for the approved digests |
| Promotion.ApplyImages | scripts/backend_deploy_production.py:67-71 | One service after the other, each rollout finished first, keeps the order in every state, in both directions; it succeeds exactly when none of its commands failed |
| Promotion.RollOut | scripts/backend_deploy_production.py:115-120 | Success means all services run the new images after a healthy probe, and current.json is written; it raises exactly when one of its commands failed or no probe was answered |
| Promotion.VerifyRunning | scripts/backend_deploy_production.py:74-81 | Success means every service runs only its image and the last command was a healthy probe; where all images run it fails only by a command of its own |
| Promotion.Health | scripts/backend_deploy_production.py:81 | At most twelve probes, up to the first that succeeds; it fails exactly when none was answered |
| Promotion.Restore | scripts/backend_deploy_production.py:126-129 | A restore succeeds exactly when none of its commands failed and a probe was answered; it then ends with all previous images, in order at every state |
| Promotion.AfterFailure | scripts/backend_deploy_production.py:121-134 | The failure is written down first; the restore follows exactly if that worked and is due, and the record says restored exactly if no command of it failed and a probe was answered |
| Promotion.WriteOutcome | scripts/backend_deploy_production.py:135-137 | The record is always attempted, the result only after it, and no service changes |
| Promotion.UnwrittenFailure | scripts/backend_deploy_production.py:120-134 | A machine where no file can be written: the promotion fails, is not restored, and the new images keep running |
| Promotion.StuckRestore | scripts/backend_deploy_production.py:120-134 | A machine where current.json cannot be written, the failure can, and the old images can no longer be set: the restore is begun and the record says that it failed |
| Promotion.SetKeepsOrder | scripts/backend_deploy_production.py:67-71 | Setting the next image keeps the order |
| Promotion.RolloutKeepsOrder | scripts/backend_deploy_production.py:67-71 | Finishing a rollout keeps the order |
| Promotion.ReferenceInjective | scripts/backend_deploy_production.py:24-25 | Different services or digests have different names |
| Promotion.SettledIsOrdered | scripts/backend_deploy_production.py:67-71 | A settled cluster in which no changed service runs its new image is in order |
| CalendarImport.Parse | shared/digest/import.js:10-85 | An import succeeds exactly for an acceptable file and range and no fatal error, and is refused for the first check that fails; then it has distinct ids, at most 1000 events in order of start, each meeting the window and uncancelled, after at most 10000 steps |
| CalendarImport.Refuse | shared/digest/import.js:11-22 | The checks of size, range, link, syntax, wholeness and number of definitions, in their order |
| CalendarImport.ImportSeries | shared/digest/import.js:39-80 | One series adds its occurrences or its warning; a fatal error is passed on |
| CalendarImport.ScanSeries | shared/digest/import.js:54-76 | The loop over the iterator does what the specified scan does |
| CalendarImport.ScanEnd | shared/digest/import.js:48-52 | The end of the scan never falls below the window, lies behind every occurrence moved into it, and is no later than needed |
| CalendarImport.ScanKeeps | shared/digest/import.js:54-76 | A scan keeps ids distinct and events in the window, and passes a limit only by the error of that limit |
| CalendarImport.TakeAllKeeps | shared/digest/import.js:39-81 | Whatever the series, an import that does not fail stays within its limits |
| CalendarImport.LimitsAreFatal | shared/digest/import.js:57-78 | The two limit errors are among those that end the import |
| CalendarImport.OccurrenceImported | shared/digest/import.js:54-76 | Every wanted occurrence in reach of a series scanned without error is imported |
| CalendarImport.MovedOccurrenceImported | shared/digest/import.js:48-76 | With ascending days an occurrence moved into the window is imported however late its original day |
| CalendarImport.EventsComeFromSeries | shared/digest/import.js:56-76 | Every event shows an occurrence of one of the series under its id |
| CalendarImport.SortSorts | shared/digest/import.js:85 | The sort is a permutation in order of start that keeps events of one start in their order |
| CalendarImport.SortDistinct | shared/digest/import.js:85 | Sorting keeps ids distinct |

## Left out

- Addresses.EmbeddingsAgree: the answers of `net.isIP` are the parameters `family4` and `family6`, since that function is the host's; which texts it takes is not modelled.
- CalendarTime.Time.ToUnixTime: `Date.UTC` is the day count of the proleptic Gregorian calendar, years 0 to 99 read as 1900 to 1999, without the host's range limit of 8.64e15 ms and without NaN.
- Recurrence.RecurIterator.Next: it is stated for iterators that stand on DTSTART (see the constructor) from year 100 on, as `Date.UTC` moves the years before by 1900; other rules than DAILY and WEEKLY with INTERVAL, and BY parts, COUNT and UNTIL, are not modelled.
- Recurrence.RecurIterator.CheckContractingRules: the weekday in it comes from the formula without the memo; `weekNumber` and `dayOfYear`, which it also asks for, are omitted, as they decide nothing without BY parts.
- OutboundGuard.GuardedFetch: `validate`, URL parsing and resolution, and the answers are functions of the trace so far; whatever `validate` throws, an error of the resolver included, is the one outcome `EndpointRefused`; signals and other init members are passed on unmodelled.
- Promotion.Deploy: the host lock, the check of the state path and interrupts that are no `Exception` are not modelled.
- Promotion.ImportApproved: that a name by digest already in the store or in an archive stands for that digest is a premise (`Honest`), as the code trusts it.
- LoginStores.StartKeeps: the two texts of an id and a provider are compared after lowering ASCII letters only; the policy of the provider is given.
- LoginStores.ApplyKeeps: each handler reads the clock twice here, once to sweep and once afterwards; the code reads it again at every change.
- LoginStores.ReactKeeps: `runApiKeyFlow`, provider logins and endpoint lookups are any sequence of callbacks that ends at any time; instruction texts are shortened, unused step members dropped, and the classification of an error is given.
- LoginRecords.RequestsConserved: a request refused at once is rejected without being published and is not counted.
- LoginManagers.LoginSessionManager.Poll: the timer or signal that ends a wait is a callback of its own; the length limit of an input counts characters.
- CalendarImport.Parse: days and instants are numbers where the code compares ISO texts; ids are pairs of texts where the code joins their percent-encodings; texts of events, time zones (whose errors are given), and the warnings about orphaned exceptions and alarms are left out; what the calendar library answers is given.
- CalendarImport.Refuse: the link, syntax and wholeness checks are given answers; the range is in whole days, so that two texts of the shape of a date that name no day, which the code lets pass because `NaN > 366` is false, have no counterpart.
- Numbers are unbounded; this is exact for the safe integers of the host.
- The vCard design set, jCal components, VTIMEZONE expansion and `RecurExpansion` of `ical.js`.
- `normalizedPublicHostname` and `createPublicEndpointFetch`: host name shapes and the DNS pinning around the same verdict.
- HTTP routes, bearer checks, kubectl, ctr, archives and hashing behind the modelled commands, and all user interfaces.
