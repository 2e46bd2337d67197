/**
 * The store of hosted login sessions as a value: the handlers of the session manager and the
 * callbacks of login flows, each of which runs without interruption.
 */
module LoginStores {
  import opened Wrappers
  import opened LoginRecords
  import opened WhiteSpace

  /** A credential handed out by a claim, with the record it came from. */
  datatype Handed = Handed(record: nat, id: string, provider: string, credential: Credential, endpoint: Option<string>)

  /**
   * Every record ever started, the ones the session map holds in insertion order, and what was
   * handed out. A record is named by its position, which survives reuse of its session id.
   */
  datatype Store = Store(
    records: seq<RecordState>, sessions: seq<nat>, handed: seq<Handed>, maxSessions: int, idleTimeout: int)

  datatype RouteError =
    | InvalidRequest | SessionExists | UnknownProvider | UnsupportedLogin | TooManySessions
    | NotFound | MalformedInput | InputTooLong | NoPendingInput | NotCompleted

  const MAX_LOGIN_INPUT_LENGTH := 16384

  // ----- identifiers -----

  predicate IsHex(c: char) {
    '0' <= c <= '9' || 'a' <= c <= 'f' || 'A' <= c <= 'F'
  }

  /** Five hexadecimal groups of 8, 4, 4, 4 and 12 digits. */
  predicate IsSessionId(text: string) {
    |text| == 36
    && forall i :: 0 <= i < 36 ==> if i == 8 || i == 13 || i == 18 || i == 23 then text[i] == '-' else IsHex(text[i])
  }

  predicate IsAlphanumeric(c: char) {
    '0' <= c <= '9' || 'a' <= c <= 'z' || 'A' <= c <= 'Z'
  }

  predicate IsProviderId(text: string) {
    1 <= |text| <= 128 && IsAlphanumeric(text[0])
    && forall i :: 0 < i < |text| ==> IsAlphanumeric(text[i]) || text[i] == '.' || text[i] == '_' || text[i] == '-'
  }

  function Lower(text: string): (r: string)
    ensures |r| == |text|
  {
    if text == "" then ""
    else [if 'A' <= text[0] <= 'Z' then text[0] - 'A' + 'a' else text[0]] + Lower(text[1..])
  }

  /** value.trim() === '' */
  predicate IsBlank(text: string) {
    forall i :: 0 <= i < |text| ==> IsSpace(text[i])
  }

  // ----- the session map -----

  function Without(list: seq<nat>, i: nat): (r: seq<nat>)
    ensures forall j :: j in r <==> j in list && j != i
    ensures |r| <= |list| && (i in list ==> |r| < |list|)
    ensures forall k :: 0 <= k < |r| ==> r[k] in list
  {
    if list == [] then []
    else if list[0] == i then Without(list[1..], i)
    else [list[0]] + Without(list[1..], i)
  }

  predicate InRange(s: Store) {
    forall k :: 0 <= k < |s.sessions| ==> s.sessions[k] < |s.records|
  }

  function Put(s: Store, i: nat, r: RecordState): Store
    requires i < |s.records|
  {
    s.(records := s.records[i := r])
  }

  function Forget(s: Store, i: nat): Store
    requires i < |s.records|
  {
    Put(s, i, s.records[i].(live := false)).(sessions := Without(s.sessions, i))
  }

  /** A new record, held by the map after all others. */
  function With(s: Store, r: RecordState): Store {
    s.(records := s.records + [r], sessions := s.sessions + [|s.records|])
  }

  predicate UnknownId(s: Store, id: string)
    requires InRange(s)
  {
    forall k :: 0 <= k < |s.sessions| ==> s.records[s.sessions[k]].id != id
  }

  /** The session the map holds under an id. */
  function Find(s: Store, list: seq<nat>, id: string): (r: Option<nat>)
    requires forall k :: 0 <= k < |list| ==> list[k] < |s.records|
    ensures r.Some? ==> r.value in list && s.records[r.value].id == id
    ensures r.None? ==> forall k :: 0 <= k < |list| ==> s.records[list[k]].id != id
  {
    if list == [] then None
    else if s.records[list[0]].id == id then Some(list[0])
    else Find(s, list[1..], id)
  }

  /** Forgets a session, discards its credential, and ends its flow unless it has ended. */
  function Drop(s: Store, i: nat, status: Status, error: Option<ErrorCode>, later: int): Store
    requires i < |s.records|
  {
    var gone := Forget(s, i);
    var r := gone.records[i].Discard();
    Put(gone, i, if r.Terminal() then r else r.Finish(status, error, later))
  }

  predicate IsIdle(s: Store, i: nat, now: int)
    requires i < |s.records|
  {
    now - s.records[i].lastActivity >= s.idleTimeout
  }

  function ExpireOne(s: Store, i: nat, now: int, later: int): Store
    requires i < |s.records|
  {
    if IsIdle(s, i, now) then Drop(s, i, Failed, Some(Timeout), later) else s
  }

  function Expire(s: Store, list: seq<nat>, now: int, later: int): (t: Store)
    requires InRange(s) && forall k :: 0 <= k < |list| ==> list[k] < |s.records|
    ensures InRange(t) && |t.records| == |s.records|
    decreases list
  {
    if list == [] then s else Expire(ExpireOne(s, list[0], now, later), list[1..], now, later)
  }

  /** Expires the sessions that were idle for the timeout or longer. */
  function Sweep(s: Store, now: int, later: int): (t: Store)
    requires InRange(s)
    ensures InRange(t) && |t.records| == |s.records|
  {
    Expire(s, s.sessions, now, later)
  }

  function DropAll(s: Store, list: seq<nat>, later: int): (t: Store)
    requires forall k :: 0 <= k < |list| ==> list[k] < |s.records|
    ensures |t.records| == |s.records|
    decreases list
  {
    if list == [] then s else DropAll(Drop(s, list[0], Cancelled, None, later), list[1..], later)
  }

  function Close(s: Store, later: int): Store
    requires InRange(s)
  {
    DropAll(s, s.sessions, later)
  }

  predicate IsEvictable(r: RecordState) {
    r.status == Failed || r.status == Cancelled
  }

  /** The first session of least activity among the failed and cancelled ones. */
  function Oldest(s: Store, list: seq<nat>, best: Option<nat>): (r: Option<nat>)
    requires forall k :: 0 <= k < |list| ==> list[k] < |s.records|
    requires best.Some? ==> best.value < |s.records|
    ensures r.Some? ==> r.value < |s.records|
  {
    if list == [] then best
    else
      var r := s.records[list[0]];
      if !IsEvictable(r) then Oldest(s, list[1..], best)
      else if best.None? || r.lastActivity < s.records[best.value].lastActivity then Oldest(s, list[1..], Some(list[0]))
      else Oldest(s, list[1..], best)
  }

  function Evict(s: Store): Store
    requires InRange(s)
  {
    var oldest := Oldest(s, s.sessions, None);
    if oldest.Some? then Forget(s, oldest.value) else s
  }

  /** The store once a slot was sought for a start. */
  function MakeRoom(s: Store): Store
    requires InRange(s)
  {
    if |s.sessions| >= s.maxSessions then Evict(s) else s
  }

  // ----- the handlers -----

  datatype Verb = DefaultLogin | ApiKeyLogin | OtherLogin

  /** The arguments of a start; a member that is no text is absent. */
  datatype StartRequest = StartRequest(provider: Option<string>, sessionId: Option<string>, verb: Verb)

  datatype PolicyKind = PastedKey | EnvironmentOnly | Interactive

  datatype Policy = Policy(kind: PolicyKind, acceptsApiKeyMethod: bool, storeAs: Option<string>, pasteKey: bool)

  predicate PastesKey(verb: Verb, policy: Policy) {
    verb == ApiKeyLogin || policy.kind == PastedKey || policy.kind == EnvironmentOnly
  }

  /** Why a start is refused before capacity matters. */
  function StartProblem(s: Store, request: StartRequest, policy: Option<Policy>): (r: Option<RouteError>)
    requires InRange(s)
    ensures r != Some(TooManySessions)
  {
    if request.sessionId.None? || !IsSessionId(request.sessionId.value)
       || request.provider.None? || !IsProviderId(request.provider.value) || request.verb == OtherLogin
    then Some(InvalidRequest)
    else if Find(s, s.sessions, Lower(request.sessionId.value)).Some? then Some(SessionExists)
    else if policy.None? then Some(UnknownProvider)
    else if PastesKey(request.verb, policy.value) && !policy.value.acceptsApiKeyMethod then Some(UnsupportedLogin)
    else None
  }

  /** The record a start creates. */
  function StartedRecord(request: StartRequest, policy: Policy, later: int): RecordState
    requires request.sessionId.Some? && request.provider.Some?
  {
    NewRecord(Lower(request.sessionId.value),
              if policy.storeAs.Some? then policy.storeAs.value else request.provider.value, policy.pasteKey, later)
  }

  function Start(s: Store, request: StartRequest, policy: Option<Policy>, now: int, later: int)
    : (Store, Result<nat, RouteError>)
    requires InRange(s)
  {
    var swept := Sweep(s, now, later);
    var problem := StartProblem(swept, request, policy);
    if problem.Some? then (swept, Err(problem.value))
    else
      var roomy := MakeRoom(swept);
      if |roomy.sessions| >= roomy.maxSessions then (roomy, Err(TooManySessions))
      else
        (With(roomy, StartedRecord(request, policy.value, later)), Ok(|roomy.records|))
  }

  /** The swept store and the session under an id, which any handler looks up first. */
  function Get(s: Store, id: string, now: int, later: int): (r: (Store, Option<nat>))
    requires InRange(s)
    ensures InRange(r.0) && (r.1.Some? ==> r.1.value < |r.0.records|)
  {
    var swept := Sweep(s, now, later);
    (swept, Find(swept, swept.sessions, Lower(id)))
  }

  /** A poll answers at once unless it may wait and nothing has changed since `after`. */
  predicate MustWait(r: RecordState, seconds: int, after: Option<int>) {
    seconds > 0 && (after.None? || after.value == r.version) && !r.Terminal()
  }

  /** `None` while the poll waits. */
  function Poll(s: Store, id: string, seconds: int, after: Option<int>, waiter: nat, now: int, later: int)
    : (Store, Result<Option<Snapshot>, RouteError>)
    requires InRange(s)
  {
    var (swept, found) := Get(s, id, now, later);
    if found.None? then (swept, Err(NotFound))
    else
      var r := swept.records[found.value].Touch(later);
      if MustWait(r, seconds, after) then (Put(swept, found.value, r.Wait(waiter)), Ok(None))
      else (Put(swept, found.value, r), Ok(Some(r.View())))
  }

  /** Why an input is refused. */
  function InputProblem(r: RecordState, value: Option<string>): Option<RouteError> {
    if value.None? then Some(MalformedInput)
    else if |value.value| > MAX_LOGIN_INPUT_LENGTH then Some(InputTooLong)
    else if r.pending.None? || r.status != AwaitingInput then Some(NoPendingInput)
    else if !r.pending.value.allowEmpty && IsBlank(value.value) then Some(MalformedInput)
    else None
  }

  function Input(s: Store, id: string, value: Option<string>, now: int, later: int): (Store, Result<Snapshot, RouteError>)
    requires InRange(s)
  {
    var (swept, found) := Get(s, id, now, later);
    if found.None? then (swept, Err(NotFound))
    else
      var r := swept.records[found.value].Touch(later);
      var problem := InputProblem(r, value);
      if problem.Some? then (Put(swept, found.value, r), Err(problem.value))
      else
        var accepted := r.AcceptInput(value.value, later);
        (Put(swept, found.value, accepted), Ok(accepted.View()))
  }

  function Cancel(s: Store, id: string, now: int, later: int): (Store, Result<Snapshot, RouteError>)
    requires InRange(s)
  {
    var (swept, found) := Get(s, id, now, later);
    if found.None? then (swept, Err(NotFound))
    else
      var r := swept.records[found.value].Touch(later).Cancel(later);
      (Put(swept, found.value, r), Ok(r.View()))
  }

  function ClaimOf(s: Store, i: nat): Handed
    requires i < |s.records| && s.records[i].result.Some?
  {
    var r := s.records[i];
    Handed(i, r.id, r.claimProvider, r.result.value, r.endpoint)
  }

  function HandOut(s: Store, i: nat): Store
    requires i < |s.records| && s.records[i].result.Some?
  {
    var t := Forget(Put(s, i, s.records[i].Discard()), i);
    t.(handed := t.handed + [ClaimOf(s, i)])
  }

  /** Hands the credential over and forgets the session. */
  function Claim(s: Store, id: string, now: int, later: int): (Store, Result<Handed, RouteError>)
    requires InRange(s)
  {
    var (swept, found) := Get(s, id, now, later);
    if found.None? then (swept, Err(NotFound))
    else
      var i := found.value;
      var r := swept.records[i];
      if r.status != Completed || r.result.None? then (Put(swept, i, r.Touch(later)), Err(NotCompleted))
      else
        (HandOut(swept, i), Ok(ClaimOf(swept, i)))
  }

  // ----- steps -----

  /** What a flow does to its own record, and how the waits on the record begin and end. */
  datatype Callback =
    | Emits(step: LoginStep)
    | Asks(question: LoginStep, allowEmpty: bool, signalAborted: bool)
    | AsksForCode(signalAborted: bool)
    | SignalAborts(number: nat)
    | Returns(credential: Credential, endpoint: Option<string>, code: ErrorCode)
    | Throws(code: ErrorCode)
    | FirstStepWait(waiter: nat)
    | WaitEnds(waiter: nat)

  /** A usable result with an endpoint completes the session; anything else fails it. */
  function Returned(r: RecordState, c: Credential, endpoint: Option<string>, code: ErrorCode, later: int): RecordState {
    if !IsUsable(c) then r.Fail(ProviderRejected, later)
    else if endpoint.None? then r.Fail(code, later)
    else r.Complete(c, endpoint.value, later)
  }

  function React(r: RecordState, callback: Callback, later: int): RecordState {
    match callback
    case Emits(step) => r.SetStep(step, later)
    case Asks(question, allowEmpty, signalAborted) => r.AwaitInput(question, allowEmpty, signalAborted, later)
    case AsksForCode(signalAborted) => r.ManualCode(signalAborted, later)
    case SignalAborts(number) => r.AbortRequest(number, later)
    case Returns(c, endpoint, code) => Returned(r, c, endpoint, code, later)
    case Throws(code) => r.Fail(code, later)
    case FirstStepWait(waiter) => r.AwaitFirstStep(waiter)
    case WaitEnds(waiter) => r.Wake(waiter)
  }

  /** One uninterrupted step: a call of a client, or a callback of the flow of one record. */
  datatype Action =
    | StartCall(request: StartRequest, policy: Option<Policy>)
    | PollCall(id: string, seconds: int, after: Option<int>, waiter: nat)
    | InputCall(id: string, value: Option<string>)
    | CancelCall(id: string)
    | ClaimCall(id: string)
    | SweepCall
    | CloseCall
    | FlowCall(record: nat, callback: Callback)

  /** `now` is the clock when the map is swept, `later` when the step records its activity. */
  datatype Step = Step(action: Action, now: int, later: int)

  function Apply(s: Store, step: Step): Store
    requires InRange(s)
  {
    match step.action
    case StartCall(request, policy) => Start(s, request, policy, step.now, step.later).0
    case PollCall(id, seconds, after, waiter) => Poll(s, id, seconds, after, waiter, step.now, step.later).0
    case InputCall(id, value) => Input(s, id, value, step.now, step.later).0
    case CancelCall(id) => Cancel(s, id, step.now, step.later).0
    case ClaimCall(id) => Claim(s, id, step.now, step.later).0
    case SweepCall => Sweep(s, step.now, step.later)
    case CloseCall => Close(s, step.later)
    case FlowCall(i, callback) => if i < |s.records| then Put(s, i, React(s.records[i], callback, step.later)) else s
  }

  // ----- the invariant -----

  predicate Increasing(list: seq<nat>) {
    forall k, l :: 0 <= k < l < |list| ==> list[k] < list[l]
  }

  /** The map holds exactly the live records, each under its own id. */
  predicate MapInv(s: Store) {
    && Increasing(s.sessions)
    && (forall i :: i in s.sessions ==> i < |s.records|)
    && (forall i :: 0 <= i < |s.records| ==> (s.records[i].live <==> i in s.sessions))
    && (forall i, j :: i in s.sessions && j in s.sessions && i != j ==> s.records[i].id != s.records[j].id)
  }

  predicate HandedInv(s: Store) {
    && (forall k :: 0 <= k < |s.handed| ==> IsOwn(s, s.handed[k]))
    && (forall k, l :: 0 <= k < l < |s.handed| ==> s.handed[k].record != s.handed[l].record)
  }

  /** What was handed out is what the flow of that very record delivered, and the record is forgotten. */
  predicate IsOwn(s: Store, h: Handed) {
    && h.record < |s.records| && !s.records[h.record].live && s.records[h.record].status == Completed
    && h.endpoint.Some? && s.records[h.record].delivered == Some(Delivery(h.credential, h.endpoint.value))
    && s.records[h.record].id == h.id && s.records[h.record].claimProvider == h.provider
  }

  predicate Inv(s: Store) {
    && MapInv(s)
    && (forall i :: 0 <= i < |s.records| ==> RecordInv(s.records[i]))
    && |s.sessions| <= (if s.maxSessions < 0 then 0 else s.maxSessions)
    && HandedInv(s)
  }

  lemma InvInRange(s: Store)
    requires MapInv(s)
    ensures InRange(s)
  {
    forall k | 0 <= k < |s.sessions|
      ensures s.sessions[k] < |s.records|
    {
      assert s.sessions[k] in s.sessions;
    }
  }

  /** Later states of a store. New hand-outs come from records that were live and not yet final. */
  predicate StoreEvolves(s: Store, t: Store) {
    && s.maxSessions == t.maxSessions && s.idleTimeout == t.idleTimeout
    && |s.records| <= |t.records|
    && (forall i :: 0 <= i < |s.records| ==> Evolves(s.records[i], t.records[i]))
    && s.handed <= t.handed
    && (forall k :: |s.handed| <= k < |t.handed| ==> MayBeHanded(s, t.handed[k].record))
  }

  predicate MayBeHanded(s: Store, i: nat) {
    i < |s.records| ==> s.records[i].live && !IsEvictable(s.records[i])
  }

  lemma StoreEvolvesReflexive(s: Store)
    ensures StoreEvolves(s, s)
  {
  }

  lemma StoreEvolvesTransitive(s: Store, t: Store, u: Store)
    requires StoreEvolves(s, t) && StoreEvolves(t, u)
    ensures StoreEvolves(s, u)
  {
    forall i | 0 <= i < |s.records|
      ensures Evolves(s.records[i], u.records[i])
    {
      EvolvesTransitive(s.records[i], t.records[i], u.records[i]);
    }
    forall k | |s.handed| <= k < |u.handed|
      ensures MayBeHanded(s, u.handed[k].record)
    {
      if k < |t.handed| {
        assert MayBeHanded(s, t.handed[k].record);
      } else {
        var i := u.handed[k].record;
        assert MayBeHanded(t, i);
        assert i < |s.records| ==> Evolves(s.records[i], t.records[i]);
      }
    }
  }

  // ----- every step keeps the invariant -----

  /** Replacing a record by a later state of it, without touching the map. */
  lemma PutKeeps(s: Store, i: nat, r: RecordState)
    requires Inv(s) && i < |s.records|
    requires RecordInv(r) && Evolves(s.records[i], r) && r.live == s.records[i].live
    requires !r.live ==> r.status == s.records[i].status
    ensures Inv(Put(s, i, r)) && StoreEvolves(s, Put(s, i, r))
  {
    var t := Put(s, i, r);
    forall k | 0 <= k < |s.handed|
      ensures IsOwn(t, t.handed[k])
    {
      assert IsOwn(s, s.handed[k]);
    }
  }

  lemma WithoutIncreasing(list: seq<nat>, i: nat)
    requires Increasing(list)
    ensures Increasing(Without(list, i))
  {
    if list != [] {
      WithoutIncreasing(list[1..], i);
      var r := Without(list[1..], i);
      forall k | 0 <= k < |r|
        ensures list[0] < r[k]
      {
        assert r[k] in list[1..];
      }
    }
  }

  /** Forgetting a session whose record is final and holds no credential. */
  lemma ForgetKeeps(s: Store, i: nat, r: RecordState)
    requires Inv(s) && i in s.sessions && i < |s.records|
    requires !r.live && RecordInv(r) && Evolves(s.records[i], r)
    ensures var t := Put(s, i, r).(sessions := Without(s.sessions, i));
      Inv(t) && StoreEvolves(s, t)
  {
    var t := Put(s, i, r).(sessions := Without(s.sessions, i));
    WithoutIncreasing(s.sessions, i);
    forall k | 0 <= k < |s.handed|
      ensures IsOwn(t, t.handed[k])
    {
      assert IsOwn(s, s.handed[k]);
    }
  }

  lemma DroppedRecord(r: RecordState, status: Status, error: Option<ErrorCode>, later: int)
    requires RecordInv(r) && r.live
    requires (status == Failed && error.Some?) || (status == Cancelled && error.None?)
    ensures var gone := r.(live := false).Discard();
      var t := if gone.Terminal() then gone else gone.Finish(status, error, later);
      RecordInv(t) && Evolves(r, t) && !t.live
  {
    FinishKeeps(r.(live := false).Discard(), status, error, later);
  }

  lemma DropKeeps(s: Store, i: nat, status: Status, error: Option<ErrorCode>, later: int)
    requires Inv(s) && i in s.sessions && i < |s.records|
    requires (status == Failed && error.Some?) || (status == Cancelled && error.None?)
    ensures Inv(Drop(s, i, status, error, later)) && StoreEvolves(s, Drop(s, i, status, error, later))
    ensures Drop(s, i, status, error, later).sessions == Without(s.sessions, i)
  {
    hide RecordInv, Evolves, Inv, StoreEvolves;
    assert RecordInv(s.records[i]) && s.records[i].live by { LiveRecord(s, i); }
    DroppedRecord(s.records[i], status, error, later);
    var gone := s.records[i].(live := false).Discard();
    var r := if gone.Terminal() then gone else gone.Finish(status, error, later);
    ForgetKeeps(s, i, r);
    assert Drop(s, i, status, error, later) == Put(s, i, r).(sessions := Without(s.sessions, i)) by {
      assert s.records[i := s.records[i].(live := false)][i := r] == s.records[i := r];
    }
  }

  lemma LiveRecord(s: Store, i: nat)
    requires Inv(s) && i in s.sessions
    ensures i < |s.records| && RecordInv(s.records[i]) && s.records[i].live
  {
  }

  /** What a drop leaves alone. */
  lemma DropFrame(s: Store, i: nat, status: Status, error: Option<ErrorCode>, later: int)
    requires i < |s.records|
    ensures var t := Drop(s, i, status, error, later);
      && |t.records| == |s.records| && t.sessions == Without(s.sessions, i) && !t.records[i].live
      && t.handed == s.handed && t.idleTimeout == s.idleTimeout && t.maxSessions == s.maxSessions
      && forall j :: 0 <= j < |s.records| && j != i ==> t.records[j] == s.records[j]
  {
  }

  /** A sweep over a list of sessions: the idle ones among them go, everything else stays. */
  lemma {:induction false} ExpireKeeps(s: Store, list: seq<nat>, now: int, later: int)
    requires Inv(s) && InRange(s) && Increasing(list)
    requires forall k :: 0 <= k < |list| ==> list[k] in s.sessions && list[k] < |s.records|
    ensures var t := Expire(s, list, now, later);
      && Inv(t) && StoreEvolves(s, t) && t.handed == s.handed
      && (forall j :: j in t.sessions ==> j in s.sessions && j < |s.records| && t.records[j] == s.records[j])
      && (forall j :: j in s.sessions && j !in t.sessions ==> j in list && j < |s.records| && IsIdle(s, j, now))
      && (forall k :: 0 <= k < |list| && IsIdle(s, list[k], now) ==> list[k] !in t.sessions)
    decreases list
  {
    hide Inv, StoreEvolves, Drop, RecordInv;
    if list == [] {
      StoreEvolvesReflexive(s);
      assert forall j :: j in s.sessions ==> j < |s.records| by { SessionsInRange(s); }
    } else {
      var i := list[0];
      var m := ExpireOne(s, i, now, later);
      var t := Expire(s, list, now, later);
      if IsIdle(s, i, now) {
        DropKeeps(s, i, Failed, Some(Timeout), later);
        DropFrame(s, i, Failed, Some(Timeout), later);
      } else {
        StoreEvolvesReflexive(s);
      }
      assert InRange(m) by { SessionsInRange(m); }
      ExpireKeeps(m, list[1..], now, later);
      StoreEvolvesTransitive(s, m, t);
      forall k | 0 <= k < |list| && IsIdle(s, list[k], now)
        ensures list[k] !in t.sessions
      {
        if k > 0 {
          assert list[1..][k - 1] == list[k] && list[0] < list[k];
          assert IsIdle(m, list[k], now);
        }
      }
    }
  }

  lemma SessionsInRange(s: Store)
    requires Inv(s)
    ensures InRange(s) && Increasing(s.sessions) && forall j :: j in s.sessions ==> j < |s.records|
  {
    InvInRange(s);
  }

  /** The sweep keeps exactly the sessions active within the timeout, and keeps them as they are. */
  lemma SweepKeeps(s: Store, now: int, later: int)
    requires Inv(s) && InRange(s)
    ensures var t := Sweep(s, now, later);
      && Inv(t) && StoreEvolves(s, t) && t.handed == s.handed
      && (forall j :: j in t.sessions <==> j in s.sessions && j < |s.records| && !IsIdle(s, j, now))
      && (forall j :: j in t.sessions ==> j < |s.records| && t.records[j] == s.records[j])
  {
    hide Inv, StoreEvolves, Expire, IsIdle;
    SessionsInRange(s);
    assert forall k :: 0 <= k < |s.sessions| ==> s.sessions[k] in s.sessions;
    ExpireKeeps(s, s.sessions, now, later);
  }

  /** Closing forgets every session and ends every flow. */
  lemma {:induction false} DropAllKeeps(s: Store, list: seq<nat>, later: int)
    requires Inv(s) && Increasing(list)
    requires forall k :: 0 <= k < |list| ==> list[k] in s.sessions && list[k] < |s.records|
    ensures var t := DropAll(s, list, later);
      && Inv(t) && StoreEvolves(s, t) && t.handed == s.handed
      && (forall j :: j in t.sessions ==> j in s.sessions && j !in list)
      && |t.sessions| <= |s.sessions| - |list|
    decreases list
  {
    hide Inv, StoreEvolves, Drop, RecordInv;
    if list == [] {
      StoreEvolvesReflexive(s);
    } else {
      var m := Drop(s, list[0], Cancelled, None, later);
      DropKeeps(s, list[0], Cancelled, None, later);
      DropFrame(s, list[0], Cancelled, None, later);
      DropAllKeeps(m, list[1..], later);
      StoreEvolvesTransitive(s, m, DropAll(s, list, later));
    }
  }

  lemma CloseKeeps(s: Store, later: int)
    requires Inv(s) && InRange(s)
    ensures var t := Close(s, later);
      && Inv(t) && StoreEvolves(s, t) && t.handed == s.handed && t.sessions == []
      && (forall i :: 0 <= i < |t.records| ==> !t.records[i].live && t.records[i].Terminal() && t.records[i].result.None?)
  {
    var t := Close(s, later);
    assert Inv(t) && StoreEvolves(s, t) && t.handed == s.handed && t.sessions == [] by {
      hide Inv, StoreEvolves, DropAll, RecordInv;
      SessionsInRange(s);
      assert forall k :: 0 <= k < |s.sessions| ==> s.sessions[k] in s.sessions;
      DropAllKeeps(s, s.sessions, later);
    }
    forall i | 0 <= i < |t.records|
      ensures !t.records[i].live && t.records[i].Terminal() && t.records[i].result.None?
    {
      assert RecordInv(t.records[i]);
    }
  }

  /** Session i of the list, before which every failed or cancelled one was active later. */
  predicate FirstLeast(s: Store, list: seq<nat>, i: nat)
    requires i < |s.records| && forall k :: 0 <= k < |list| ==> list[k] < |s.records|
  {
    exists k :: 0 <= k < |list| && list[k] == i
      && forall j :: 0 <= j < k && IsEvictable(s.records[list[j]]) ==>
           s.records[list[j]].lastActivity > s.records[i].lastActivity
  }

  /** The session chosen for eviction: failed or cancelled, and of least activity among those. */
  lemma {:induction false} OldestIsLeast(s: Store, list: seq<nat>, best: Option<nat>)
    requires forall k :: 0 <= k < |list| ==> list[k] < |s.records|
    requires best.Some? ==> best.value < |s.records| && IsEvictable(s.records[best.value])
    ensures var r := Oldest(s, list, best);
      && (r.Some? ==> (r == best || r.value in list) && IsEvictable(s.records[r.value]))
      && (r.None? <==> best.None? && forall k :: 0 <= k < |list| ==> !IsEvictable(s.records[list[k]]))
      && (r.Some? && best.Some? ==> r == best || s.records[r.value].lastActivity < s.records[best.value].lastActivity)
      && (r.Some? ==> r == best || FirstLeast(s, list, r.value))
      && (r.Some? ==> forall k :: 0 <= k < |list| && IsEvictable(s.records[list[k]]) ==>
            s.records[r.value].lastActivity <= s.records[list[k]].lastActivity)
    decreases list
  {
    if list != [] {
      var next := if IsEvictable(s.records[list[0]])
                     && (best.None? || s.records[list[0]].lastActivity < s.records[best.value].lastActivity)
                  then Some(list[0]) else best;
      OldestIsLeast(s, list[1..], next);
      var r := Oldest(s, list[1..], next);
      assert Oldest(s, list, best) == r;
      assert forall k :: 0 < k < |list| ==> list[k] == list[1..][k - 1];
      if r.Some? && r != best {
        LeastOfRest(s, list, next, r.value);
      }
      if r.Some? {
        forall k | 0 <= k < |list| && IsEvictable(s.records[list[k]])
          ensures s.records[r.value].lastActivity <= s.records[list[k]].lastActivity
        {
          if k > 0 {
            assert list[k] == list[1..][k - 1];
          }
        }
      }
    }
  }

  lemma LeastOfRest(s: Store, list: seq<nat>, next: Option<nat>, i: nat)
    requires list != [] && forall k :: 0 <= k < |list| ==> list[k] < |s.records|
    requires i < |s.records| && (next == Some(i) ==> list[0] == i)
    requires next != Some(i) ==> FirstLeast(s, list[1..], i)
    requires next != Some(i) && IsEvictable(s.records[list[0]]) ==> s.records[i].lastActivity < s.records[list[0]].lastActivity
    ensures FirstLeast(s, list, i)
  {
    if next != Some(i) {
      var k :| 0 <= k < |list| - 1 && list[1..][k] == i
        && forall j :: 0 <= j < k && IsEvictable(s.records[list[1..][j]]) ==>
             s.records[list[1..][j]].lastActivity > s.records[i].lastActivity;
      assert list[k + 1] == i;
      forall j | 0 <= j < k + 1 && IsEvictable(s.records[list[j]])
        ensures s.records[list[j]].lastActivity > s.records[i].lastActivity
      {
        assert j > 0 ==> list[j] == list[1..][j - 1];
      }
    }
  }

  /** Eviction removes at most one session: a failed or cancelled one that was least recently active. */
  lemma EvictKeeps(s: Store)
    requires Inv(s) && InRange(s)
    ensures var t := Evict(s);
      && Inv(t) && StoreEvolves(s, t) && t.handed == s.handed
      && (t == s ==> forall k :: 0 <= k < |s.sessions| ==> !IsEvictable(s.records[s.sessions[k]]))
      && (t != s ==> exists i :: i in s.sessions && LeastEvictable(s, i) && FirstLeast(s, s.sessions, i) && t == Forget(s, i))
  {
    hide Inv, StoreEvolves;
    OldestIsLeast(s, s.sessions, None);
    var oldest := Oldest(s, s.sessions, None);
    if oldest.Some? {
      var i := oldest.value;
      EvictedRecord(s, i);
      ForgetKeeps(s, i, s.records[i].(live := false));
      assert i in s.sessions && LeastEvictable(s, i) && FirstLeast(s, s.sessions, i) && Evict(s) == Forget(s, i);
      assert Evict(s) != s by {
        assert s.records[i].live && !Evict(s).records[i].live;
      }
    } else {
      StoreEvolvesReflexive(s);
    }
  }

  predicate LeastEvictable(s: Store, i: nat)
    requires InRange(s)
  {
    && i < |s.records| && IsEvictable(s.records[i])
    && forall k :: 0 <= k < |s.sessions| && IsEvictable(s.records[s.sessions[k]]) ==>
         s.records[i].lastActivity <= s.records[s.sessions[k]].lastActivity
  }

  lemma EvictedRecord(s: Store, i: nat)
    requires Inv(s) && i in s.sessions && i < |s.records| && IsEvictable(s.records[i])
    ensures s.records[i].live
    ensures var r := s.records[i].(live := false); RecordInv(r) && Evolves(s.records[i], r)
  {
    LiveRecord(s, i);
  }

  /** A handler meets only sessions active within the idle timeout, and only under their own id. */
  lemma GetKeeps(s: Store, id: string, now: int, later: int)
    requires Inv(s) && InRange(s)
    ensures var (t, found) := Get(s, id, now, later);
      && Inv(t) && StoreEvolves(s, t) && t.handed == s.handed
      && (found.Some? ==> found.value in s.sessions && found.value in t.sessions && found.value < |t.records|)
      && (found.Some? ==> t.records[found.value].live && RecordInv(t.records[found.value]))
      && (found.Some? ==> found.value < |s.records| && t.records[found.value] == s.records[found.value])
      && (found.Some? ==> t.records[found.value].id == Lower(id) && !IsIdle(s, found.value, now))
      && (found.None? ==> forall k :: 0 <= k < |s.sessions| && !IsIdle(s, s.sessions[k], now) ==>
                            s.records[s.sessions[k]].id != Lower(id))
  {
    hide Inv, StoreEvolves, Sweep, RecordInv, IsIdle;
    SweepKeeps(s, now, later);
    var (t, found) := Get(s, id, now, later);
    if found.Some? {
      LiveRecord(t, found.value);
    } else {
      forall k | 0 <= k < |s.sessions| && !IsIdle(s, s.sessions[k], now)
        ensures s.records[s.sessions[k]].id != Lower(id)
      {
        assert s.sessions[k] in t.sessions;
      }
    }
  }

  lemma PollKeeps(s: Store, id: string, seconds: int, after: Option<int>, waiter: nat, now: int, later: int)
    requires Inv(s) && InRange(s)
    ensures var t := Poll(s, id, seconds, after, waiter, now, later).0;
      Inv(t) && StoreEvolves(s, t) && t.handed == s.handed
  {
    hide Inv, StoreEvolves, Get;
    GetKeeps(s, id, now, later);
    var (swept, found) := Get(s, id, now, later);
    if found.Some? {
      var r := swept.records[found.value].Touch(later);
      var u := if MustWait(r, seconds, after) then r.Wait(waiter) else r;
      PutKeeps(swept, found.value, u);
      StoreEvolvesTransitive(s, swept, Put(swept, found.value, u));
    }
  }

  lemma InputKeeps(s: Store, id: string, value: Option<string>, now: int, later: int)
    requires Inv(s) && InRange(s)
    ensures var t := Input(s, id, value, now, later).0;
      Inv(t) && StoreEvolves(s, t) && t.handed == s.handed
  {
    hide Inv, StoreEvolves, Get, InputProblem;
    GetKeeps(s, id, now, later);
    var (swept, found) := Get(s, id, now, later);
    if found.Some? {
      var r := swept.records[found.value].Touch(later);
      assert RecordInv(r) && Evolves(swept.records[found.value], r);
      if InputProblem(r, value).Some? {
        PutKeeps(swept, found.value, r);
        StoreEvolvesTransitive(s, swept, Put(swept, found.value, r));
      } else {
        AcceptedWaits(r, value);
        var u := r.AcceptInput(value.value, later);
        AcceptInputKeeps(r, value.value, later);
        EvolvesTransitive(swept.records[found.value], r, u);
        PutKeeps(swept, found.value, u);
        StoreEvolvesTransitive(s, swept, Put(swept, found.value, u));
      }
    }
  }

  lemma AcceptedWaits(r: RecordState, value: Option<string>)
    requires InputProblem(r, value).None?
    ensures value.Some? && r.status == AwaitingInput && r.pending.Some?
  {
  }

  lemma CancelCallKeeps(s: Store, id: string, now: int, later: int)
    requires Inv(s) && InRange(s)
    ensures var t := Cancel(s, id, now, later).0;
      Inv(t) && StoreEvolves(s, t) && t.handed == s.handed
  {
    hide Inv, StoreEvolves, Get;
    GetKeeps(s, id, now, later);
    var (swept, found) := Get(s, id, now, later);
    if found.Some? {
      var r := swept.records[found.value].Touch(later);
      assert RecordInv(r) && Evolves(swept.records[found.value], r);
      CancelKeeps(r, later);
      EvolvesTransitive(swept.records[found.value], r, r.Cancel(later));
      PutKeeps(swept, found.value, r.Cancel(later));
      StoreEvolvesTransitive(s, swept, Put(swept, found.value, r.Cancel(later)));
    }
  }

  lemma ClaimKeeps(s: Store, id: string, now: int, later: int)
    requires Inv(s) && InRange(s)
    ensures var (t, answer) := Claim(s, id, now, later);
      && Inv(t) && StoreEvolves(s, t)
      && (answer.Ok? ==> t.handed == s.handed + [answer.value])
      && (answer.Err? ==> t.handed == s.handed)
  {
    hide Inv, StoreEvolves, Get;
    GetKeeps(s, id, now, later);
    var (swept, found) := Get(s, id, now, later);
    if found.Some? {
      var i := found.value;
      var r := swept.records[i];
      if r.status != Completed || r.result.None? {
        PutKeeps(swept, i, r.Touch(later));
        StoreEvolvesTransitive(s, swept, Put(swept, i, r.Touch(later)));
      } else {
        var gone := r.Discard().(live := false);
        ForgetKeeps(swept, i, gone);
        var t := Put(swept, i, gone).(sessions := Without(swept.sessions, i));
        assert Forget(Put(swept, i, r.Discard()), i) == t by {
          assert swept.records[i := r.Discard()][i := gone] == swept.records[i := gone];
        }
        var claim := ClaimOf(swept, i);
        StoreEvolvesTransitive(s, swept, t);
        HandOver(s, swept, t, claim);
      }
    }
  }

  /** Recording a hand-out of a record that has just been forgotten. */
  lemma HandOver(s: Store, swept: Store, t: Store, claim: Handed)
    requires Inv(swept) && Inv(t) && StoreEvolves(s, swept) && StoreEvolves(s, t) && t.handed == s.handed == swept.handed
    requires claim.record < |s.records| && IsOwn(t, claim)
    requires swept.records[claim.record].live && swept.records[claim.record].status == Completed
    ensures Inv(t.(handed := t.handed + [claim])) && StoreEvolves(s, t.(handed := t.handed + [claim]))
  {
    var i := claim.record;
    assert Evolves(s.records[i], swept.records[i]);
    forall k | 0 <= k < |t.handed|
      ensures t.handed[k].record != i
    {
      assert IsOwn(swept, swept.handed[k]);
    }
    var u := t.(handed := t.handed + [claim]);
    forall k | 0 <= k < |u.handed|
      ensures IsOwn(u, u.handed[k])
    {
      if k < |t.handed| {
        assert IsOwn(t, t.handed[k]);
      }
    }
  }

  /** Eviction either frees the slot that was missing, or there is nothing it may remove. */
  lemma MakeRoomKeeps(s: Store)
    requires Inv(s) && InRange(s)
    ensures var t := MakeRoom(s);
      && Inv(t) && InRange(t) && StoreEvolves(s, t) && t.handed == s.handed && |t.records| == |s.records|
      && t.maxSessions == s.maxSessions
      && (|t.sessions| >= t.maxSessions ==> t == s)
      && (|t.sessions| >= t.maxSessions <==> |s.sessions| >= s.maxSessions && NoneEvictable(s))
      && (t != s ==> |s.sessions| == s.maxSessions && Victim(s, t))
      && (forall i :: i in t.sessions ==> i in s.sessions && i < |s.records| && t.records[i] == s.records[i])
  {
    hide StoreEvolves, RecordInv;
    EvictKeeps(s);
    StoreEvolvesReflexive(s);
    var t := MakeRoom(s);
    SessionsInRange(t);
    SessionsInRange(s);
  }

  /** Making room brings no id back. */
  lemma StillUnknown(s: Store, id: string)
    requires Inv(s) && InRange(s) && UnknownId(s, id)
    ensures InRange(MakeRoom(s)) && UnknownId(MakeRoom(s), id)
  {
    hide Inv, MakeRoom;
    MakeRoomKeeps(s);
    var t := MakeRoom(s);
    forall k | 0 <= k < |t.sessions|
      ensures t.records[t.sessions[k]].id != id
    {
      assert t.sessions[k] in t.sessions;
      assert t.sessions[k] in s.sessions;
    }
  }

  predicate NoneEvictable(s: Store)
    requires InRange(s)
  {
    forall k :: 0 <= k < |s.sessions| ==> !IsEvictable(s.records[s.sessions[k]])
  }

  /** t is s without one failed or cancelled session of least activity. */
  ghost predicate Victim(s: Store, t: Store)
    requires InRange(s)
  {
    exists i :: i in s.sessions && LeastEvictable(s, i) && FirstLeast(s, s.sessions, i) && t == Forget(s, i)
  }

  /** A new record under an id the map does not hold. */
  lemma AppendKeeps(s: Store, r: RecordState)
    requires Inv(s) && InRange(s) && RecordInv(r) && r.live
    requires |s.sessions| < s.maxSessions && UnknownId(s, r.id)
    ensures Inv(With(s, r)) && StoreEvolves(s, With(s, r))
  {
    var t := With(s, r);
    SessionsInRange(s);
    hide RecordInv;
    forall k | 0 <= k < |s.handed|
      ensures IsOwn(t, t.handed[k])
    {
      assert IsOwn(s, s.handed[k]);
    }
    assert Increasing(t.sessions) by {
      assert forall k :: 0 <= k < |s.sessions| ==> s.sessions[k] in s.sessions;
    }
  }

  /** t is s with a slot freed if need be and the new session after the others. */
  predicate Admitted(s: Store, t: Store, request: StartRequest, policy: Option<Policy>, later: int)
    requires InRange(s)
  {
    && request.sessionId.Some? && request.provider.Some? && policy.Some?
    && t == With(MakeRoom(s), StartedRecord(request, policy.value, later))
  }

  /**
   * A refused start removes nothing but idle sessions; it is refused for lack of room only when no
   * session could be evicted. An admitted one adds its record after the others.
   */
  lemma StartKeeps(s: Store, request: StartRequest, policy: Option<Policy>, now: int, later: int)
    requires Inv(s) && InRange(s)
    ensures var (t, answer) := Start(s, request, policy, now, later);
      var swept := Sweep(s, now, later);
      && Inv(t) && StoreEvolves(s, t) && t.handed == s.handed
      && (answer.Err? ==> t == swept)
      && (answer == Err(TooManySessions) <==>
          StartProblem(swept, request, policy).None? && |swept.sessions| >= swept.maxSessions && NoneEvictable(swept))
      && (answer.Ok? ==> Admitted(swept, t, request, policy, later) && answer.value == |s.records|)
  {
    hide Inv, StoreEvolves, Sweep, MakeRoom, StartProblem, RecordInv;
    SweepKeeps(s, now, later);
    var swept := Sweep(s, now, later);
    var problem := StartProblem(swept, request, policy);
    if problem.None? {
      StartChecked(swept, request, policy);
      MakeRoomKeeps(swept);
      var roomy := MakeRoom(swept);
      StoreEvolvesTransitive(s, swept, roomy);
      if |roomy.sessions| < roomy.maxSessions {
        var r := StartedRecord(request, policy.value, later);
        NewRecordInv(r.id, r.claimProvider, r.pasteKey, later);
        StillUnknown(swept, r.id);
        AppendKeeps(roomy, r);
        StoreEvolvesTransitive(s, roomy, With(roomy, r));
      }
    }
  }

  lemma StartChecked(s: Store, request: StartRequest, policy: Option<Policy>)
    requires InRange(s) && StartProblem(s, request, policy).None?
    ensures request.sessionId.Some? && request.provider.Some? && policy.Some?
    ensures UnknownId(s, Lower(request.sessionId.value))
  {
  }

  /** A callback keeps the invariant of its record and reaches no record but a live one. */
  lemma ReactKeeps(r: RecordState, callback: Callback, later: int)
    requires RecordInv(r)
    ensures var t := React(r, callback, later);
      && RecordInv(t) && Evolves(r, t) && t.live == r.live
      && (!r.live ==> t == r.(pasteRequests := t.pasteRequests))
  {
    hide PasteGuide, IsUsable;
    match callback
    case Emits(step) => SetStepKeeps(r, step, later);
    case Asks(question, allowEmpty, signalAborted) => AwaitInputKeeps(r, question, allowEmpty, signalAborted, later);
    case AsksForCode(signalAborted) => ManualCodeKeeps(r, signalAborted, later);
    case SignalAborts(number) => AbortRequestKeeps(r, number, later);
    case Returns(c, endpoint, code) =>
      if IsUsable(c) && endpoint.Some? {
        CompleteKeeps(r, c, endpoint.value, later);
      } else {
        FailKeeps(r, if IsUsable(c) then code else ProviderRejected, later);
      }
    case Throws(code) => FailKeeps(r, code, later);
    case FirstStepWait(waiter) =>
    case WaitEnds(waiter) =>
      if !r.live {
        assert r.waiters - {waiter} == r.waiters;
      }
  }

  /** Every step of every client and every flow keeps the invariant. */
  lemma ApplyKeeps(s: Store, step: Step)
    requires Inv(s) && InRange(s)
    ensures Inv(Apply(s, step)) && StoreEvolves(s, Apply(s, step))
  {
    hide Inv, StoreEvolves, RecordInv, Evolves, Start, Poll, Input, Cancel, Claim, Sweep, Close, React;
    match step.action
    case StartCall(request, policy) => StartKeeps(s, request, policy, step.now, step.later);
    case PollCall(id, seconds, after, waiter) => PollKeeps(s, id, seconds, after, waiter, step.now, step.later);
    case InputCall(id, value) => InputKeeps(s, id, value, step.now, step.later);
    case CancelCall(id) => CancelCallKeeps(s, id, step.now, step.later);
    case ClaimCall(id) => ClaimKeeps(s, id, step.now, step.later);
    case SweepCall => SweepKeeps(s, step.now, step.later);
    case CloseCall => CloseKeeps(s, step.later);
    case FlowCall(i, callback) =>
      if i < |s.records| {
        assert RecordInv(s.records[i]) by { RecordsInv(s, i); }
        ReactKeeps(s.records[i], callback, step.later);
        PutKeeps(s, i, React(s.records[i], callback, step.later));
      } else {
        StoreEvolvesReflexive(s);
      }
  }

  lemma RecordsInv(s: Store, i: nat)
    requires Inv(s) && i < |s.records|
    ensures RecordInv(s.records[i]) && (s.records[i].live <==> i in s.sessions)
  {
  }
}
