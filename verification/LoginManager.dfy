/** The session manager: records on the heap and the map that holds them, proved against the store. */
module LoginManagers {
  import opened Wrappers
  import opened LoginRecords
  import opened LoginStores

  datatype LoginClaim = LoginClaim(provider: string, material: Credential, endpoint: Option<string>)

  /** The states of a list of records. */
  ghost function States(list: seq<LoginSessionRecord>): (r: seq<RecordState>)
    reads list
    ensures |r| == |list| && forall k :: 0 <= k < |list| ==> r[k] == list[k].State()
  {
    if list == [] then [] else [list[0].State()] + States(list[1..])
  }

  predicate Distinct(list: seq<LoginSessionRecord>) {
    forall i, j :: 0 <= i < j < |list| ==> list[i] != list[j]
  }

  lemma DistinctFrom(list: seq<LoginSessionRecord>, i: nat)
    requires Distinct(list) && i < |list|
    ensures forall k :: 0 <= k < |list| && k != i ==> list[k] != list[i]
  {
  }

  /** Only one of the records has changed. */
  lemma OneChanged(list: seq<LoginSessionRecord>, before: seq<RecordState>, i: nat)
    requires i < |list| == |before|
    requires forall k :: 0 <= k < |list| && k != i ==> list[k].State() == before[k]
    ensures States(list) == before[i := list[i].State()]
  {
    assert forall k :: 0 <= k < |list| ==> States(list)[k] == before[i := list[i].State()][k];
  }

  /** The records at the given positions. */
  function Pick(list: seq<LoginSessionRecord>, positions: seq<nat>): (r: seq<LoginSessionRecord>)
    requires forall k :: 0 <= k < |positions| ==> positions[k] < |list|
    ensures |r| == |positions| && forall k :: 0 <= k < |r| ==> r[k] == list[positions[k]]
  {
    if positions == [] then [] else [list[positions[0]]] + Pick(list, positions[1..])
  }

  /** Map.delete: the map without the entry under an id. */
  function WithoutId(list: seq<LoginSessionRecord>, id: string): seq<LoginSessionRecord> {
    if list == [] then []
    else if list[0].id == id then WithoutId(list[1..], id)
    else [list[0]] + WithoutId(list[1..], id)
  }

  /** Deleting by id deletes that very record, because no two sessions of the map share an id. */
  lemma {:induction false} DeleteById(list: seq<LoginSessionRecord>, positions: seq<nat>, i: nat)
    requires forall k :: 0 <= k < |positions| ==> positions[k] < |list|
    requires i < |list|
    requires forall k :: 0 <= k < |positions| && positions[k] != i ==> list[positions[k]].id != list[i].id
    ensures forall k :: 0 <= k < |Without(positions, i)| ==> Without(positions, i)[k] < |list|
    ensures WithoutId(Pick(list, positions), list[i].id) == Pick(list, Without(positions, i))
  {
    if positions != [] {
      DeleteById(list, positions[1..], i);
      assert Pick(list, positions)[1..] == Pick(list, positions[1..]);
      if positions[0] != i {
        var rest := Without(positions[1..], i);
        assert Without(positions, i)[1..] == rest;
      }
    }
  }

  lemma ExpireUnfolds(s: Store, list: seq<nat>, now: int, later: int)
    requires InRange(s) && list != [] && forall k :: 0 <= k < |list| ==> list[k] < |s.records|
    ensures Expire(s, list, now, later) == Expire(ExpireOne(s, list[0], now, later), list[1..], now, later)
  {
  }

  lemma ExpireOfNone(s: Store, now: int, later: int)
    requires InRange(s)
    ensures Expire(s, [], now, later) == s
  {
  }

  lemma IncreasingRest(list: seq<nat>, k: nat)
    requires Increasing(list) && k < |list|
    ensures forall j :: k < j < |list| ==> list[j] != list[k]
  {
  }

  lemma DropAllUnfolds(s: Store, list: seq<nat>, later: int)
    requires list != [] && forall k :: 0 <= k < |list| ==> list[k] < |s.records|
    ensures DropAll(s, list, later) == DropAll(LoginStores.Drop(s, list[0], Cancelled, None, later), list[1..], later)
  {
  }

  lemma DropAllOfNone(s: Store, later: int)
    ensures DropAll(s, [], later) == s
  {
  }

  class LoginSessionManager {
    const maxSessions: int
    const idleTimeout: int
    var sessions: seq<LoginSessionRecord> // the values of the map, in insertion order
    ghost var started: seq<LoginSessionRecord>
    ghost var held: seq<nat>
    ghost var handed: seq<Handed>

    /** The map holds the records at the positions `held`, under different ids. */
    ghost predicate Coupled()
      reads this
    {
      && Distinct(started)
      && (forall k :: 0 <= k < |held| ==> held[k] < |started|)
      && sessions == Pick(started, held)
      && (forall i, j :: i in held && j in held && i != j ==> i < |started| && j < |started| && started[i].id != started[j].id)
    }

    ghost function Abs(): (s: Store)
      reads this, started
    {
      Store(States(started), held, handed, maxSessions, idleTimeout)
    }

    ghost predicate Valid()
      reads this, started
    {
      Coupled() && Inv(Abs())
    }

    /** What the map holds. */
    lemma SessionsAre()
      requires Valid()
      ensures InRange(Abs()) && Increasing(held) && |sessions| == |held|
      ensures forall k :: 0 <= k < |held| ==> held[k] in held && held[k] < |started| && sessions[k] == started[held[k]]
    {
      SessionsInRange(Abs());
    }

    constructor (maxSessions: int, idleTimeout: int)
      ensures Valid() && Abs() == Store([], [], [], maxSessions, idleTimeout)
    {
      this.maxSessions, this.idleTimeout := maxSessions, idleTimeout;
      sessions, started, held, handed := [], [], [], [];
    }

    method Forget(session: LoginSessionRecord, ghost i: nat)
      requires Coupled() && i in held && i < |started| && started[i] == session
      modifies this, session
      ensures Coupled() && started == old(started) && Abs() == LoginStores.Forget(old(Abs()), i)
    {
      hide States, Pick, WithoutId, Without, Distinct;
      ghost var before := States(started);
      session.live := false;
      assert session.State() == before[i].(live := false);
      OneChanged(started, before, i) by {
        assert forall k :: 0 <= k < |started| && k != i ==> started[k] != session by { DistinctFrom(started, i); }
      }
      assert forall k :: 0 <= k < |held| ==> held[k] in held;
      DeleteById(started, held, i);
      sessions := WithoutId(sessions, session.id);
      held := Without(held, i);
    }

    /** Forgets a session, drops its credential and ends its flow. */
    method Drop(session: LoginSessionRecord, ghost i: nat, status: Status, error: Option<ErrorCode>, later: int)
      requires Coupled() && i in held && i < |started| && started[i] == session
      modifies this, session
      ensures Coupled() && started == old(started) && Abs() == LoginStores.Drop(old(Abs()), i, status, error, later)
    {
      hide Distinct, Pick, States, LoginStores.Forget;
      Forget(session, i);
      ghost var before := States(started);
      session.Discard();
      if !IsTerminal(session.status) {
        session.Finish(status, error, later);
      }
      DistinctFrom(started, i);
      OneChanged(started, before, i);
    }

    method ExpireIfIdle(session: LoginSessionRecord, ghost i: nat, now: int, later: int)
      requires Valid() && i in held && i < |started| && started[i] == session
      modifies this, session
      ensures Valid() && started == old(started) && Abs() == ExpireOne(old(Abs()), i, now, later)
      ensures InRange(Abs()) && forall j :: j in old(held) && j != i ==> j in held
    {
      hide Inv, Distinct, LoginStores.Drop, States, Without;
      DropKeeps(Abs(), i, Failed, Some(Timeout), later);
      if now - session.lastActivity >= idleTimeout {
        Drop(session, i, Failed, Some(Timeout), later);
      }
      SessionsInRange(Abs());
    }

    /** Expires the idle sessions of a copy of the map. */
    method Sweep(now: int, later: int)
      requires Valid()
      modifies this, started
      ensures Valid() && started == old(started)
      ensures InRange(old(Abs())) && Abs() == LoginStores.Sweep(old(Abs()), now, later)
    {
      hide Inv, Distinct, Expire, ExpireOne, States, Increasing, Pick;
      SessionsAre();
      var copy := sessions;
      ghost var list := held;
      ghost var last := Expire(Abs(), list, now, later);
      var k := 0;
      assert list[k..] == list;
      while k < |copy|
        invariant k <= |copy| == |list|
        invariant Valid() && started == old(started) && Increasing(list)
        invariant forall j :: 0 <= j < |list| ==> list[j] < |started| && copy[j] == started[list[j]]
        invariant forall j :: k <= j < |list| ==> list[j] in held
        invariant InRange(Abs()) && Expire(Abs(), list[k..], now, later) == last
      {
        ExpireUnfolds(Abs(), list[k..], now, later);
        assert list[k..][1..] == list[k + 1..];
        IncreasingRest(list, k);
        ExpireIfIdle(copy[k], list[k], now, later);
        k := k + 1;
      }
      assert list[k..] == [];
      ExpireOfNone(Abs(), now, later);
    }

    method End(session: LoginSessionRecord, ghost i: nat, later: int)
      requires Valid() && i in held && i < |started| && started[i] == session
      modifies this, session
      ensures Valid() && started == old(started)
      ensures Abs() == LoginStores.Drop(old(Abs()), i, Cancelled, None, later)
      ensures forall j :: j in old(held) && j != i ==> j in held
    {
      hide Inv, Distinct, LoginStores.Drop, States, Without;
      DropKeeps(Abs(), i, Cancelled, None, later);
      Drop(session, i, Cancelled, None, later);
    }

    /** Aborts every session of a copy of the map. */
    method Close(later: int)
      requires Valid()
      modifies this, started
      ensures Valid() && started == old(started)
      ensures InRange(old(Abs())) && Abs() == LoginStores.Close(old(Abs()), later)
    {
      hide Inv, Distinct, DropAll, LoginStores.Drop, States, Increasing, Pick;
      SessionsAre();
      var copy := sessions;
      ghost var list := held;
      ghost var last := DropAll(Abs(), list, later);
      var k := 0;
      assert list[k..] == list;
      while k < |copy|
        invariant k <= |copy| == |list|
        invariant Valid() && started == old(started) && Increasing(list)
        invariant forall j :: 0 <= j < |list| ==> list[j] < |started| && copy[j] == started[list[j]]
        invariant forall j :: k <= j < |list| ==> list[j] in held
        invariant DropAll(Abs(), list[k..], later) == last
      {
        DropAllUnfolds(Abs(), list[k..], later);
        assert list[k..][1..] == list[k + 1..];
        IncreasingRest(list, k);
        End(copy[k], list[k], later);
        k := k + 1;
      }
      assert list[k..] == [];
      DropAllOfNone(Abs(), later);
    }

    /** Frees one slot held by a failed or cancelled session, least recently active first. */
    method EvictFinishedSession()
      requires Valid()
      modifies this, started
      ensures Valid() && started == old(started)
      ensures InRange(old(Abs())) && Abs() == LoginStores.Evict(old(Abs()))
    {
      hide Inv, Distinct, States, LoginStores.Forget, Pick, Increasing, FirstLeast, LeastEvictable, StoreEvolves, Oldest;
      SessionsAre();
      EvictKeeps(Abs());
      OldestIsLeast(Abs(), held, None);
      var oldest, i := OldestFinished();
      if oldest != null {
        Forget(oldest, i);
      }
    }

    method OldestFinished() returns (oldest: LoginSessionRecord?, ghost i: nat)
      requires Valid()
      ensures InRange(Abs())
      ensures Oldest(Abs(), held, None) == if oldest == null then None else Some(i)
      ensures oldest == null <==> Oldest(Abs(), held, None).None?
      ensures oldest != null ==> i < |started| && oldest == started[Oldest(Abs(), held, None).value]
    {
      hide Inv, Distinct, States, Pick, Increasing;
      SessionsAre();
      oldest, i := null, 0;
      var k := 0;
      assert held[k..] == held;
      while k < |sessions|
        invariant k <= |sessions|
        invariant oldest != null ==> i < |started| && started[i] == oldest
        invariant Oldest(Abs(), held[k..], if oldest == null then None else Some(i)) == Oldest(Abs(), held, None)
      {
        assert held[k..][1..] == held[k + 1..];
        var session := sessions[k];
        if session.status == Failed || session.status == Cancelled {
          if oldest == null || session.lastActivity < oldest.lastActivity {
            oldest, i := session, held[k];
          }
        }
        k := k + 1;
      }
      assert held[k..] == [];
    }

    /** The session of an id, after a sweep. */
    method Get(id: string, now: int, later: int) returns (session: LoginSessionRecord?, ghost i: nat)
      requires Valid()
      modifies this, started
      ensures Valid() && started == old(started)
      ensures InRange(old(Abs())) && Abs() == LoginStores.Get(old(Abs()), id, now, later).0
      ensures session == null <==> LoginStores.Get(old(Abs()), id, now, later).1.None?
      ensures session != null ==> LoginStores.Get(old(Abs()), id, now, later).1 == Some(i)
      ensures session != null ==> i in held && i < |started| && started[i] == session
    {
      hide Inv, Distinct, States, Increasing, LoginStores.Sweep;
      Sweep(now, later);
      var key := Lower(id);
      SessionsInRange(Abs());
      session, i := null, 0;
      var k := 0;
      assert held[k..] == held;
      while k < |sessions|
        invariant k <= |sessions|
        invariant Find(Abs(), held[k..], key) == Find(Abs(), held, key)
      {
        assert held[k..][1..] == held[k + 1..];
        if sessions[k].id == key {
          session, i := sessions[k], held[k];
          return;
        }
        k := k + 1;
      }
      assert held[k..] == [];
    }

    method Poll(id: string, seconds: int, after: Option<int>, waiter: nat, now: int, later: int)
      returns (answer: Result<Option<Snapshot>, RouteError>)
      requires Valid()
      modifies this, started
      ensures Valid() && started == old(started)
      ensures InRange(old(Abs())) && (Abs(), answer) == LoginStores.Poll(old(Abs()), id, seconds, after, waiter, now, later)
    {
      hide Inv, Distinct, States, LoginStores.Get, Pick, Increasing;
      SessionsInRange(Abs());
      PollKeeps(Abs(), id, seconds, after, waiter, now, later);
      var session, i := Get(id, now, later);
      if session == null {
        return Err(NotFound);
      }
      ghost var before := States(started);
      session.Touch(later);
      var stale := after.Some? && after.value != session.version;
      if seconds > 0 && !stale && !IsTerminal(session.status) {
        session.WaitForChange(waiter);
        answer := Ok(None);
      } else {
        answer := Ok(Some(session.View()));
      }
      DistinctFrom(started, i);
      OneChanged(started, before, i);
    }

    method Input(id: string, value: Option<string>, now: int, later: int) returns (answer: Result<Snapshot, RouteError>)
      requires Valid()
      modifies this, started
      ensures Valid() && started == old(started)
      ensures InRange(old(Abs())) && (Abs(), answer) == LoginStores.Input(old(Abs()), id, value, now, later)
    {
      hide Inv, Distinct, States, LoginStores.Get, Pick, Increasing;
      SessionsInRange(Abs());
      InputKeeps(Abs(), id, value, now, later);
      var session, i := Get(id, now, later);
      if session == null {
        return Err(NotFound);
      }
      ghost var before := States(started);
      session.Touch(later);
      if value.None? {
        answer := Err(MalformedInput);
      } else if |value.value| > MAX_LOGIN_INPUT_LENGTH {
        answer := Err(InputTooLong);
      } else if session.pending.None? || session.status != AwaitingInput {
        answer := Err(NoPendingInput);
      } else if !session.pending.value.allowEmpty && IsBlank(value.value) {
        answer := Err(MalformedInput);
      } else {
        session.AcceptInput(value.value, later);
        answer := Ok(session.View());
      }
      DistinctFrom(started, i);
      OneChanged(started, before, i);
    }

    method Cancel(id: string, now: int, later: int) returns (answer: Result<Snapshot, RouteError>)
      requires Valid()
      modifies this, started
      ensures Valid() && started == old(started)
      ensures InRange(old(Abs())) && (Abs(), answer) == LoginStores.Cancel(old(Abs()), id, now, later)
    {
      hide Inv, Distinct, States, LoginStores.Get, Pick, Increasing;
      SessionsInRange(Abs());
      CancelCallKeeps(Abs(), id, now, later);
      var session, i := Get(id, now, later);
      if session == null {
        return Err(NotFound);
      }
      ghost var before := States(started);
      session.Touch(later);
      session.Cancel(later);
      answer := Ok(session.View());
      DistinctFrom(started, i);
      OneChanged(started, before, i);
    }

    /** Hands over the credential of a completed login, then forgets the session. */
    method Claim(id: string, now: int, later: int) returns (answer: Result<LoginClaim, RouteError>)
      requires Valid()
      modifies this, started
      ensures Valid() && started == old(started) && InRange(old(Abs()))
      ensures var spec := LoginStores.Claim(old(Abs()), id, now, later);
        && Abs() == spec.0
        && (answer.Ok? <==> spec.1.Ok?) && (answer.Err? ==> answer.error == spec.1.error)
        && (answer.Ok? ==> answer.value == LoginClaim(spec.1.value.provider, spec.1.value.credential, spec.1.value.endpoint))
    {
      hide Inv, Distinct, States, LoginStores.Get, HandOut, Pick, Increasing;
      SessionsInRange(Abs());
      ClaimKeeps(Abs(), id, now, later);
      var session, i := Get(id, now, later);
      if session == null {
        return Err(NotFound);
      }
      ghost var before := States(started);
      DistinctFrom(started, i);
      if session.status != Completed || session.result.None? {
        session.Touch(later);
        OneChanged(started, before, i);
        return Err(NotCompleted);
      }
      var claim := HandOver(session, i);
      return Ok(claim);
    }

    method HandOver(session: LoginSessionRecord, ghost i: nat) returns (claim: LoginClaim)
      requires Coupled() && i in held && i < |started| && started[i] == session && session.result.Some?
      modifies this, session
      ensures Coupled() && started == old(started)
      ensures Abs() == HandOut(old(Abs()), i)
      ensures claim == LoginClaim(session.claimProvider, old(session.result.value), old(session.endpoint))
    {
      hide Distinct, States, LoginStores.Forget, Pick, RecordState.Discard;
      ghost var swept := Abs();
      claim := LoginClaim(session.claimProvider, session.result.value, session.endpoint);
      Discard(session, i);
      Forget(session, i);
      handed := handed + [ClaimOf(swept, i)];
    }

    method Discard(session: LoginSessionRecord, ghost i: nat)
      requires Coupled() && i < |started| && started[i] == session
      modifies session
      ensures Coupled() && Abs() == Put(old(Abs()), i, old(Abs()).records[i].Discard())
    {
      hide Distinct, States, Pick;
      ghost var before := States(started);
      DistinctFrom(started, i);
      session.Discard();
      OneChanged(started, before, i);
    }

    /** Registers a new session, or says why it is refused. */
    method Start(request: StartRequest, policy: Option<Policy>, now: int, later: int)
      returns (answer: Result<LoginSessionRecord, RouteError>)
      requires Valid()
      modifies this, started
      ensures Valid() && InRange(old(Abs()))
      ensures var spec := LoginStores.Start(old(Abs()), request, policy, now, later);
        && Abs() == spec.0
        && (answer.Ok? <==> spec.1.Ok?) && (answer.Err? ==> answer.error == spec.1.error)
        && (answer.Ok? ==> started == old(started) + [answer.value] && fresh(answer.value))
        && (answer.Err? ==> started == old(started))
    {
      hide Inv, Distinct, States, Pick, LoginStores.Sweep, MakeRoom, With, IsSessionId, IsProviderId, PastesKey, Increasing;
      SessionsInRange(Abs());
      StartKeeps(Abs(), request, policy, now, later);
      Sweep(now, later);
      ghost var swept := Abs();
      if request.sessionId.None? || !IsSessionId(request.sessionId.value)
         || request.provider.None? || !IsProviderId(request.provider.value) || request.verb == OtherLogin {
        return Err(InvalidRequest);
      }
      var id := Lower(request.sessionId.value);
      var known := Has(id);
      if known {
        return Err(SessionExists);
      }
      if policy.None? {
        return Err(UnknownProvider);
      }
      if PastesKey(request.verb, policy.value) && !policy.value.acceptsApiKeyMethod {
        return Err(UnsupportedLogin);
      }
      var store := if policy.value.storeAs.Some? then policy.value.storeAs.value else request.provider.value;
      answer := Admit(id, store, policy.value.pasteKey, later);
    }

    method FreeSlot()
      requires Valid()
      modifies this, started
      ensures Valid() && started == old(started) && |sessions| == |held|
      ensures InRange(old(Abs())) && Abs() == MakeRoom(old(Abs()))
    {
      hide Inv, Distinct, States, LoginStores.Evict;
      SessionsInRange(Abs());
      MakeRoomKeeps(Abs());
      if |sessions| >= maxSessions {
        EvictFinishedSession();
      }
    }

    /** Finds a slot for a new session and registers it. */
    method Admit(id: string, claimProvider: string, pasteKey: bool, later: int)
      returns (answer: Result<LoginSessionRecord, RouteError>)
      requires Valid() && InRange(Abs()) && UnknownId(Abs(), id)
      modifies this, started
      ensures Valid() && InRange(old(Abs()))
      ensures var room := MakeRoom(old(Abs()));
        && (answer.Err? <==> |room.sessions| >= room.maxSessions)
        && (answer.Err? ==> answer.error == TooManySessions && Abs() == room && started == old(started))
        && (answer.Ok? ==> started == old(started) + [answer.value] && fresh(answer.value))
        && (answer.Ok? ==> Abs() == With(room, NewRecord(id, claimProvider, pasteKey, later)))
    {
      hide Inv, Distinct, States, Pick, MakeRoom, Increasing, InRange, RecordInv, With, UnknownId, StoreEvolves;
      ghost var before := Abs();
      StillUnknown(before, id);
      FreeSlot();
      if |sessions| >= maxSessions {
        return Err(TooManySessions);
      }
      var session := new LoginSessionRecord(id, claimProvider, pasteKey, later);
      NewRecordInv(id, claimProvider, pasteKey, later);
      AppendKeeps(Abs(), session.State());
      Register(session);
      return Ok(session);
    }

    method Has(id: string) returns (known: bool)
      requires Valid()
      ensures InRange(Abs()) && (known <==> Find(Abs(), held, id).Some?)
    {
      hide Inv, Distinct, States, Increasing;
      SessionsInRange(Abs());
      var k := 0;
      assert held[k..] == held;
      while k < |sessions|
        invariant k <= |sessions|
        invariant Find(Abs(), held[k..], id) == Find(Abs(), held, id)
      {
        assert held[k..][1..] == held[k + 1..];
        if sessions[k].id == id {
          return true;
        }
        k := k + 1;
      }
      assert held[k..] == [];
      return false;
    }

    /** Map.set under an id the map does not hold. */
    method Register(session: LoginSessionRecord)
      requires Valid() && session !in started
      requires InRange(Abs()) && UnknownId(Abs(), session.id)
      modifies this
      ensures Coupled() && started == old(started) + [session]
      ensures Abs() == With(old(Abs()), session.State())
    {
      hide Inv, States, Pick;
      SessionsAre();
      sessions := sessions + [session];
      held := held + [|started|];
      started := started + [session];
    }

    /** A callback of the flow of one session, whether or not the map still holds it. */
    method FlowCallback(session: LoginSessionRecord, ghost i: nat, callback: Callback, now: int, later: int)
      requires Valid() && i < |started| && started[i] == session
      modifies session
      ensures Valid() && started == old(started) && InRange(old(Abs()))
      ensures Abs() == Apply(old(Abs()), Step(FlowCall(i, callback), now, later))
    {
      hide Inv, Distinct, States, Pick, Increasing, React;
      SessionsInRange(Abs());
      ApplyKeeps(Abs(), Step(FlowCall(i, callback), now, later));
      ghost var before := States(started);
      DistinctFrom(started, i);
      Deliver(session, callback, later);
      OneChanged(started, before, i);
    }
  }

  /** The controller handed to a flow, the settlement of the flow, and the waits. */
  method Deliver(session: LoginSessionRecord, callback: Callback, later: int)
    modifies session
    ensures session.State() == React(old(session.State()), callback, later)
  {
    match callback {
      case Emits(step) =>
        var _ := session.SetStep(step, later);
      case Asks(question, allowEmpty, signalAborted) =>
        session.AwaitInput(question, allowEmpty, signalAborted, later);
      case AsksForCode(signalAborted) =>
        session.ManualCode(signalAborted, later);
      case SignalAborts(number) =>
        session.AbortRequest(number, later);
      case Returns(c, endpoint, code) =>
        if !IsUsable(c) {
          session.Fail(ProviderRejected, later);
        } else if endpoint.None? {
          session.Fail(code, later);
        } else {
          session.Complete(c, endpoint.value, later);
        }
      case Throws(code) =>
        session.Fail(code, later);
      case FirstStepWait(waiter) =>
        if session.step.None? && session.status == Running {
          session.WaitForChange(waiter);
        }
      case WaitEnds(waiter) =>
        session.Wake(waiter);
    }
  }
}
