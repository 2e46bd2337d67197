/** Runs of the session store: any interleaving of client calls and flow callbacks. */
module LoginRuns {
  import opened Wrappers
  import opened LoginRecords
  import opened LoginStores

  function EmptyStore(maxSessions: int, idleTimeout: int): Store {
    Store([], [], [], maxSessions, idleTimeout)
  }

  /** The store after a run of steps. */
  function Run(s: Store, steps: seq<Step>): (t: Store)
    requires Inv(s)
    ensures Inv(t)
    decreases steps
  {
    InvInRange(s);
    if steps == [] then s
    else
      ApplyKeeps(s, steps[0]);
      Run(Apply(s, steps[0]), steps[1..])
  }

  lemma EmptyStoreInv(maxSessions: int, idleTimeout: int)
    ensures Inv(EmptyStore(maxSessions, idleTimeout))
  {
  }

  lemma {:induction false} RunEvolves(s: Store, steps: seq<Step>)
    requires Inv(s)
    ensures StoreEvolves(s, Run(s, steps))
    decreases steps
  {
    hide Inv, StoreEvolves, Apply;
    SessionsInRange(s);
    if steps == [] {
      StoreEvolvesReflexive(s);
    } else {
      ApplyKeeps(s, steps[0]);
      RunEvolves(Apply(s, steps[0]), steps[1..]);
      StoreEvolvesTransitive(s, Apply(s, steps[0]), Run(s, steps));
    }
  }

  /** In every reachable state: the cap, the map and its live records, and every record's invariant. */
  lemma ReachableInv(maxSessions: int, idleTimeout: int, steps: seq<Step>)
    ensures Inv(EmptyStore(maxSessions, idleTimeout))
    ensures var t := Run(EmptyStore(maxSessions, idleTimeout), steps);
      && Inv(t)
      && |t.sessions| <= (if maxSessions < 0 then 0 else maxSessions)
      && (forall i :: 0 <= i < |t.records| ==> RecordInv(t.records[i]))
      && (forall i :: 0 <= i < |t.records| ==> (t.records[i].live <==> i in t.sessions))
  {
    EmptyStoreInv(maxSessions, idleTimeout);
    RunEvolves(EmptyStore(maxSessions, idleTimeout), steps);
  }

  // ----- versions -----

  /** What a client sees of a record between two moments of a run. */
  lemma VersionDeterminesSnapshot(s: Store, steps: seq<Step>, i: nat)
    requires Inv(s) && i < |s.records|
    ensures var t := Run(s, steps);
      && i < |t.records|
      && s.records[i].version <= t.records[i].version
      && (s.records[i].version == t.records[i].version ==> s.records[i].View() == t.records[i].View())
      && StatusMayBecome(s.records[i].status, t.records[i].status)
  {
    RunEvolves(s, steps);
  }

  /** Whoever waits after a change of the record began to wait after it; an ended session keeps nobody waiting. */
  lemma NoUpdateLost(s: Store, steps: seq<Step>, i: nat)
    requires Inv(s) && i < |s.records|
    ensures var t := Run(s, steps);
      && i < |t.records|
      && (s.records[i].View() != t.records[i].View() ==>
            forall w :: w in t.records[i].waiters ==> t.records[i].waiters[w] > s.records[i].version)
      && (t.records[i].Terminal() ==> t.records[i].waiters == map[])
  {
    RunEvolves(s, steps);
    assert RecordInv(Run(s, steps).records[i]);
  }

  predicate Waits(r: RecordState, waiter: nat, after: Option<int>) {
    !r.Terminal() && waiter in r.waiters && (after.Some? ==> after.value == r.version)
  }

  /** A poll waits only if it asked to, the session goes on, and the version is the one the caller knows. */
  lemma PollWaitsForNews(s: Store, id: string, seconds: int, after: Option<int>, waiter: nat, now: int, later: int)
    requires Inv(s) && InRange(s)
    ensures var (t, answer) := Poll(s, id, seconds, after, waiter, now, later);
      var found := Get(s, id, now, later).1;
      && (answer.Err? <==> found.None?)
      && (found.Some? ==> found.value < |t.records|)
      && (answer == Ok(None) ==> found.Some? && seconds > 0 && Waits(t.records[found.value], waiter, after))
      && (answer.Ok? && answer.value.Some? ==> found.Some? && answer.value.value == s.records[found.value].View())
  {
    hide Inv, Get, RecordInv, StoreEvolves;
    GetKeeps(s, id, now, later);
  }

  /** The sweep aside, a call about an id changes no other session; every call but a claim that succeeds counts as activity. */
  lemma AnswersTouchOneSession(s: Store, id: string, step: Step)
    requires Inv(s) && InRange(s)
    requires match step.action
             case PollCall(i, _, _, _) => i == id
             case InputCall(i, _) => i == id
             case CancelCall(i) => i == id
             case ClaimCall(i) => i == id
             case _ => false
    ensures var t := Apply(s, step);
      var (swept, found) := Get(s, id, step.now, step.later);
      && |t.records| == |swept.records|
      && (found.None? ==> t == swept)
      && (found.Some? ==> forall j :: 0 <= j < |t.records| && j != found.value ==> t.records[j] == swept.records[j])
      && (forall j :: j in t.sessions ==> j in swept.sessions)
      && (forall j :: j in swept.sessions && found != Some(j) ==> j in t.sessions)
      && (found.Some? && found.value in t.sessions ==> StaysActive(s.records[found.value], t.records[found.value], step))
  {
    hide Inv, Get, StoreEvolves, RecordInv, MustWait, InputProblem;
    GetKeeps(s, id, step.now, step.later);
  }

  /** A cancellation of an ended session too renews its activity. */
  predicate StaysActive(r: RecordState, t: RecordState, step: Step) {
    t.lastActivity == step.later && t.live == r.live && t.claimProvider == r.claimProvider
  }

  // ----- input requests -----

  /** Every published request is resolved, rejected or the awaited one; a settled one stays as it was settled. */
  lemma RequestsOverRuns(s: Store, steps: seq<Step>, i: nat)
    requires Inv(s) && i < |s.records|
    ensures var t := Run(s, steps);
      && i < |t.records|
      && |t.records[i].requests| == CountResolved(t.records[i].requests) + CountRejected(t.records[i].requests)
                                    + (if t.records[i].status == AwaitingInput then 1 else 0)
      && |s.records[i].requests| <= |t.records[i].requests|
      && (forall k :: 0 <= k < |s.records[i].requests| && s.records[i].requests[k].Some? ==>
            t.records[i].requests[k] == s.records[i].requests[k])
      && (t.records[i].Terminal() ==> forall k :: 0 <= k < |t.records[i].requests| ==> t.records[i].requests[k].Some?)
  {
    RunEvolves(s, steps);
    var r := Run(s, steps).records[i];
    assert RecordInv(r);
    RequestsConserved(r);
  }

  predicate NewestResolved(r: RecordState, t: RecordState, value: string) {
    && r.status == AwaitingInput && t.status == Running && t.pending.None? && |r.requests| > 0
    && t.requests == r.requests[..|r.requests| - 1] + [Some(Resolved(value))]
  }

  /** An accepted input resolves exactly the newest request of the session, with the given text. */
  lemma InputResolvesNewest(s: Store, id: string, value: Option<string>, now: int, later: int)
    requires Inv(s) && InRange(s)
    ensures var (t, answer) := Input(s, id, value, now, later);
      var found := Get(s, id, now, later).1;
      && (answer.Ok? <==> found.Some? && InputProblem(s.records[found.value], value).None?)
      && (found.Some? ==> found.value < |t.records|)
      && (answer.Ok? ==> value.Some? && NewestResolved(s.records[found.value], t.records[found.value], value.value))
      && (answer.Err? && found.Some? ==> t.records[found.value] == s.records[found.value].Touch(later))
  {
    hide Inv, Get, StoreEvolves;
    GetKeeps(s, id, now, later);
    var (swept, found) := Get(s, id, now, later);
    if found.Some? {
      var r := swept.records[found.value].Touch(later);
      assert InputProblem(r, value) == InputProblem(s.records[found.value], value);
      if InputProblem(r, value).None? {
        assert RecordInv(r);
        AcceptInputKeeps(r, value.value, later);
      }
    }
  }

  // ----- handing over -----

  /** Over every run: no record is handed out twice, and what is handed out is what its own flow delivered. */
  lemma HandedOnce(maxSessions: int, idleTimeout: int, steps: seq<Step>)
    ensures Inv(EmptyStore(maxSessions, idleTimeout))
    ensures var t := Run(EmptyStore(maxSessions, idleTimeout), steps);
      && (forall k, l :: 0 <= k < l < |t.handed| ==> t.handed[k].record != t.handed[l].record)
      && (forall k :: 0 <= k < |t.handed| ==> IsOwn(t, t.handed[k]))
  {
    EmptyStoreInv(maxSessions, idleTimeout);
  }

  predicate NotHanded(s: Store, i: nat) {
    forall k :: 0 <= k < |s.handed| ==> s.handed[k].record != i
  }

  /** A record that is cancelled, failed or forgotten and was not handed out never is. */
  lemma NeverHandedLater(s: Store, i: nat, steps: seq<Step>)
    requires Inv(s) && i < |s.records|
    requires !s.records[i].live || IsEvictable(s.records[i])
    requires NotHanded(s, i)
    ensures NotHanded(Run(s, steps), i)
  {
    RunEvolves(s, steps);
    var t := Run(s, steps);
    forall k | 0 <= k < |t.handed|
      ensures t.handed[k].record != i
    {
      if k < |s.handed| {
        assert t.handed[k] == s.handed[k];
      } else {
        assert MayBeHanded(s, t.handed[k].record);
      }
    }
  }

  lemma LiveNotHanded(s: Store, i: nat)
    requires Inv(s) && i in s.sessions
    ensures NotHanded(s, i)
  {
    forall k | 0 <= k < |s.handed|
      ensures s.handed[k].record != i
    {
      assert IsOwn(s, s.handed[k]);
    }
  }

  /** A session that a client cancels is never handed out, whatever its flow does afterwards. */
  lemma CancelledNeverHanded(s: Store, id: string, now: int, later: int, steps: seq<Step>)
    requires Inv(s) && InRange(s)
    ensures Inv(Cancel(s, id, now, later).0)
    ensures var (t, answer) := Cancel(s, id, now, later);
      var found := Get(s, id, now, later).1;
      && (answer.Ok? <==> found.Some?)
      && (answer.Ok? ==> answer.value.status == Failed || answer.value.status == Cancelled)
      && (answer.Ok? ==> NotHanded(Run(t, steps), found.value))
  {
    hide Inv, Get, StoreEvolves, Run;
    CancelCallKeeps(s, id, now, later);
    GetKeeps(s, id, now, later);
    var (swept, found) := Get(s, id, now, later);
    var t := Cancel(s, id, now, later).0;
    if found.Some? {
      assert RecordInv(swept.records[found.value].Touch(later));
      CancelKeeps(swept.records[found.value].Touch(later), later);
      LiveNotHanded(swept, found.value);
      NeverHandedLater(t, found.value, steps);
    }
  }

  /** A session that a sweep expires is never handed out. */
  lemma ExpiredNeverHanded(s: Store, i: nat, now: int, later: int, steps: seq<Step>)
    requires Inv(s) && InRange(s) && i in s.sessions && i < |s.records| && IsIdle(s, i, now)
    ensures Inv(Sweep(s, now, later))
    ensures NotHanded(Run(Sweep(s, now, later), steps), i)
  {
    hide Inv, StoreEvolves, Run, Sweep, IsIdle, RecordInv;
    SweepKeeps(s, now, later);
    LiveNotHanded(s, i);
    assert StoreEvolves(s, Sweep(s, now, later));
    var t := Sweep(s, now, later);
    assert i !in t.sessions;
    RecordsInv(t, i);
    NeverHandedLater(t, i, steps);
  }

  /** After a close no session that was started before is ever handed out again. */
  lemma ClosedNeverHanded(s: Store, later: int, steps: seq<Step>)
    requires Inv(s) && InRange(s)
    ensures Inv(Close(s, later))
    ensures var u := Run(Close(s, later), steps);
      forall k :: |s.handed| <= k < |u.handed| ==> u.handed[k].record >= |s.records|
  {
    CloseKeeps(s, later);
    var t := Close(s, later);
    RunEvolves(t, steps);
    var u := Run(t, steps);
    forall k | |s.handed| <= k < |u.handed|
      ensures u.handed[k].record >= |s.records|
    {
      assert MayBeHanded(t, u.handed[k].record);
    }
  }

  /** What a flow of a forgotten session returns or throws changes nothing at all. */
  lemma LateResultInert(s: Store, i: nat, c: Credential, endpoint: Option<string>, code: ErrorCode, now: int, later: int)
    requires Inv(s) && InRange(s) && i < |s.records| && i !in s.sessions
    ensures Apply(s, Step(FlowCall(i, Returns(c, endpoint, code)), now, later)) == s
    ensures Apply(s, Step(FlowCall(i, Throws(code)), now, later)) == s
  {
    RecordsInv(s, i);
    assert s.records[i := s.records[i]] == s.records;
  }

  /** A claim succeeds exactly on a completed session, gives what that session's flow delivered, and only once. */
  lemma ClaimExactlyOnce(s: Store, id: string, now: int, later: int, now': int, later': int)
    requires Inv(s) && InRange(s)
    ensures Inv(Claim(s, id, now, later).0) && InRange(Claim(s, id, now, later).0)
    ensures var (t, answer) := Claim(s, id, now, later);
      var found := Get(s, id, now, later).1;
      && (answer.Ok? <==> found.Some? && s.records[found.value].status == Completed)
      && (answer.Ok? ==> answer.value.record == found.value && found.value !in t.sessions)
      && (answer.Ok? ==> answer.value.endpoint.Some?)
      && (answer.Ok? ==> Some(Delivery(answer.value.credential, answer.value.endpoint.value)) == s.records[found.value].delivered)
      && (answer.Ok? ==> answer.value.provider == s.records[found.value].claimProvider)
      && (answer.Ok? ==> Claim(t, id, now', later').1 == Err(NotFound))
  {
    hide Inv, Get, StoreEvolves;
    ClaimKeeps(s, id, now, later);
    var (t, answer) := Claim(s, id, now, later);
    SessionsInRange(t);
    GetKeeps(s, id, now, later);
    var (swept, found) := Get(s, id, now, later);
    if answer.Ok? {
      ForgottenIsUnknown(swept, t, found.value);
      GetKeeps(t, id, now', later');
    }
  }

  /** Once its session is forgotten, an id is free. */
  lemma ForgottenIsUnknown(s: Store, t: Store, i: nat)
    requires Inv(s) && i in s.sessions && Inv(t) && |t.records| == |s.records| && t.sessions == Without(s.sessions, i)
    requires forall j :: 0 <= j < |s.records| ==> t.records[j].id == s.records[j].id
    ensures i < |s.records| && InRange(t) && UnknownId(t, s.records[i].id)
  {
    SessionsInRange(s);
    forall k | 0 <= k < |t.sessions|
      ensures t.sessions[k] < |t.records| && t.records[t.sessions[k]].id != s.records[i].id
    {
      assert t.sessions[k] in t.sessions;
      assert t.sessions[k] in s.sessions;
    }
  }

  // ----- where a handed-out credential comes from -----

  /** No flow delivered anything between s and t. */
  predicate SameDelivered(s: Store, t: Store) {
    && |s.records| <= |t.records|
    && (forall j :: 0 <= j < |s.records| ==> t.records[j].delivered == s.records[j].delivered)
    && (forall j :: |s.records| <= j < |t.records| ==> t.records[j].delivered.None?)
  }

  lemma {:induction false} ExpireDeliversNothing(s: Store, list: seq<nat>, now: int, later: int)
    requires InRange(s) && forall k :: 0 <= k < |list| ==> list[k] < |s.records|
    ensures SameDelivered(s, Expire(s, list, now, later))
    decreases list
  {
    if list != [] {
      assert SameDelivered(s, ExpireOne(s, list[0], now, later));
      ExpireDeliversNothing(ExpireOne(s, list[0], now, later), list[1..], now, later);
    }
  }

  lemma {:induction false} DropAllDeliversNothing(s: Store, list: seq<nat>, later: int)
    requires forall k :: 0 <= k < |list| ==> list[k] < |s.records|
    ensures SameDelivered(s, DropAll(s, list, later))
    decreases list
  {
    if list != [] {
      assert SameDelivered(s, Drop(s, list[0], Cancelled, None, later));
      DropAllDeliversNothing(Drop(s, list[0], Cancelled, None, later), list[1..], later);
    }
  }

  lemma SweepDeliversNothing(s: Store, now: int, later: int)
    requires InRange(s)
    ensures SameDelivered(s, Sweep(s, now, later))
  {
    ExpireDeliversNothing(s, s.sessions, now, later);
  }

  lemma StartDeliversNothing(s: Store, request: StartRequest, policy: Option<Policy>, now: int, later: int)
    requires InRange(s)
    ensures SameDelivered(s, Start(s, request, policy, now, later).0)
  {
    hide Sweep, StartProblem, Without, Oldest;
    SweepDeliversNothing(s, now, later);
  }

  lemma AnswersDeliverNothing(s: Store, step: Step)
    requires InRange(s) && (step.action.PollCall? || step.action.InputCall? || step.action.CancelCall? || step.action.ClaimCall?)
    ensures SameDelivered(s, Apply(s, step))
  {
    hide Sweep, Without, Find, MustWait, InputProblem, Start, Close;
    SweepDeliversNothing(s, step.now, step.later);
  }

  /** No call of a client delivers a credential. */
  lemma CallsDeliverNothing(s: Store, step: Step)
    requires InRange(s) && !step.action.FlowCall?
    ensures SameDelivered(s, Apply(s, step))
  {
    hide Start, Poll, Input, Cancel, Claim, Sweep, SameDelivered;
    match step.action
    case StartCall(request, policy) => StartDeliversNothing(s, request, policy, step.now, step.later);
    case SweepCall => SweepDeliversNothing(s, step.now, step.later);
    case CloseCall => DropAllDeliversNothing(s, s.sessions, step.later);
    case _ => AnswersDeliverNothing(s, step);
  }

  /** The step by which the flow of record i ends well, with this credential and endpoint. */
  predicate Delivers(step: Step, i: nat, d: Delivery) {
    && step.action.FlowCall? && step.action.record == i
    && step.action.callback.Returns? && step.action.callback.credential == d.credential
    && step.action.callback.endpoint == Some(d.endpoint) && IsUsable(d.credential)
  }

  lemma ReactDelivers(r: RecordState, callback: Callback, later: int)
    ensures var t := React(r, callback, later);
      t.delivered == r.delivered
      || (callback.Returns? && callback.endpoint.Some? && IsUsable(callback.credential)
          && t.delivered == Some(Delivery(callback.credential, callback.endpoint.value)))
  {
    hide IsUsable, PasteGuide, RecordState.Settle, RecordState.Bump;
  }

  lemma {:induction false} DeliveredByOwnFlow(s: Store, steps: seq<Step>, i: nat, d: Delivery)
    requires Inv(s) && i < |Run(s, steps).records| && Run(s, steps).records[i].delivered == Some(d)
    ensures (i < |s.records| && s.records[i].delivered == Some(d)) || exists k :: 0 <= k < |steps| && Delivers(steps[k], i, d)
    decreases steps
  {
    hide Inv, RecordInv, React, IsUsable;
    SessionsInRange(s);
    if steps != [] {
      var step := steps[0];
      ApplyKeeps(s, step);
      var t := Apply(s, step);
      DeliveredByOwnFlow(t, steps[1..], i, d);
      if k :| 0 <= k < |steps| - 1 && Delivers(steps[1..][k], i, d) {
        assert Delivers(steps[k + 1], i, d);
      } else if !step.action.FlowCall? {
        hide Apply;
        CallsDeliverNothing(s, step);
      } else if step.action.record < |s.records| {
        ReactDelivers(s.records[step.action.record], step.action.callback, step.later);
        assert (i < |s.records| && s.records[i].delivered == Some(d)) || Delivers(steps[0], i, d);
      }
    }
  }

  /**
   * Over every run from an empty store, each credential handed out for a record, and its endpoint,
   * were returned by the flow of that very record, even if other sessions used its id before or after.
   */
  lemma HandedCameFromOwnFlow(maxSessions: int, idleTimeout: int, steps: seq<Step>, h: nat)
    requires Inv(EmptyStore(maxSessions, idleTimeout))
    requires h < |Run(EmptyStore(maxSessions, idleTimeout), steps).handed|
    ensures var claim := Run(EmptyStore(maxSessions, idleTimeout), steps).handed[h];
      claim.endpoint.Some?
      && exists k :: 0 <= k < |steps| && Delivers(steps[k], claim.record, Delivery(claim.credential, claim.endpoint.value))
  {
    var s := EmptyStore(maxSessions, idleTimeout);
    var claim := Run(s, steps).handed[h];
    assert IsOwn(Run(s, steps), claim);
    DeliveredByOwnFlow(s, steps, claim.record, Delivery(claim.credential, claim.endpoint.value));
  }
}
