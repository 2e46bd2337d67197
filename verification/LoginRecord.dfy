/** One hosted login session: its state, the transitions of the state, and the record that holds it. */
module LoginRecords {
  import opened Wrappers

  datatype Status = Running | AwaitingInput | Completed | Failed | Cancelled

  datatype ErrorCode = ProviderRejected | Timeout | UnsupportedFlow | InvalidInput | LoginFailed

  datatype LoginStep =
    | ApiKey(instructions: Option<string>, prompt: Option<string>)
    | OpenUrl(url: string, launchUrl: Option<string>, notes: Option<string>)
    | Prompt(message: string, placeholder: Option<string>, secret: bool, allowEmpty: bool)
    | PasteCode(guide: string)
    | Progress(text: string)

  /** A pasted key, or OAuth credentials with their access token. */
  datatype Credential = Key(key: string) | OAuth(access: string, refresh: string)

  /** isUsableResult: a non-empty key or access token. */
  predicate IsUsable(c: Credential) {
    match c
    case Key(k) => k != ""
    case OAuth(a, _) => a != ""
  }

  /** What a flow completes with: a credential and the endpoint it is for. */
  datatype Delivery = Delivery(credential: Credential, endpoint: string)

  /** How a published input request ended. */
  datatype Settlement = Resolved(value: string) | Rejected

  /** The request an answer would go to. */
  datatype Pending = Pending(request: nat, allowEmpty: bool)

  predicate IsTerminal(status: Status) {
    status == Completed || status == Failed || status == Cancelled
  }

  datatype Snapshot = Snapshot(
    sessionId: string, status: Status, step: Option<LoginStep>, auth: Option<LoginStep>,
    error: Option<ErrorCode>, version: nat)

  /**
   * The state of a record. `requests` holds every published input request and how it was settled,
   * `delivered` what the flow completed with, and `waiters` the long polls with the
   * version each one waits to see change.
   */
  datatype RecordState = RecordState(
    id: string,
    claimProvider: string,
    pasteKey: bool,
    status: Status,
    step: Option<LoginStep>,
    auth: Option<LoginStep>,
    error: Option<ErrorCode>,
    version: nat,
    lastActivity: int,
    pending: Option<Pending>,
    pasteRequests: nat,
    result: Option<Credential>,
    endpoint: Option<string>,
    live: bool,
    aborted: bool,
    waiters: map<nat, nat>,
    requests: seq<Option<Settlement>>,
    delivered: Option<Delivery>)
  {
    predicate Terminal() {
      IsTerminal(status)
    }

    function View(): Snapshot {
      Snapshot(id, status, step, auth, error, version)
    }

    function Touch(now: int): RecordState {
      this.(lastActivity := now)
    }

    function Bump(now: int): (t: RecordState)
      ensures t.delivered == delivered && t.live == live
    {
      this.(version := version + 1, lastActivity := now, waiters := map[])
    }

    /** Settles the pending request, if there is one. */
    function Settle(s: Settlement): (t: RecordState)
      ensures t.delivered == delivered && t.live == live
    {
      if pending.Some? && pending.value.request < |requests| then
        this.(pending := None, requests := requests[pending.value.request := Some(s)])
      else this.(pending := None)
    }

    function SetStep(step: LoginStep, now: int): RecordState {
      if Terminal() then this
      else this.(step := Some(step), auth := if step.OpenUrl? then Some(step) else auth).Bump(now)
    }

    function Finish(status: Status, error: Option<ErrorCode>, now: int): RecordState {
      this.(status := status, error := error, aborted := true).Settle(Rejected).Bump(now)
    }

    function Complete(c: Credential, endpoint: string, now: int): RecordState {
      if Terminal() || !live then this
      else this.(result := Some(c), endpoint := Some(endpoint), delivered := Some(Delivery(c, endpoint)))
          .Finish(Completed, None, now)
    }

    function Discard(): RecordState {
      this.(result := None, endpoint := None)
    }

    function Fail(code: ErrorCode, now: int): RecordState {
      if Terminal() || !live then this else Finish(Failed, Some(code), now)
    }

    /** Publishes a request; one that is refused at once is not published. */
    function AwaitInput(step: LoginStep, allowEmpty: bool, signalAborted: bool, now: int): RecordState {
      if Terminal() || aborted || signalAborted then this
      else
        var r := Settle(Rejected);
        r.(requests := r.requests + [None], pending := Some(Pending(|r.requests|, allowEmpty)), status := AwaitingInput)
          .SetStep(step, now)
    }

    /** onManualCodeInput: counts the requests, since a repeated one explains itself differently. */
    function ManualCode(signalAborted: bool, now: int): RecordState {
      var r := this.(pasteRequests := pasteRequests + 1);
      r.AwaitInput(PasteCode(PasteGuide(r.pasteRequests, pasteKey)), false, signalAborted, now)
    }

    /** The signal of one request aborts; a settled request no longer listens. */
    function AbortRequest(request: nat, now: int): RecordState {
      if pending.Some? && pending.value.request == request then
        var r := Settle(Rejected);
        if status == AwaitingInput then r.(status := Running).Bump(now) else r
      else this
    }

    function AcceptInput(value: string, now: int): RecordState {
      this.(status := Running).Settle(Resolved(value)).Bump(now)
    }

    function Wait(waiter: nat): RecordState {
      this.(waiters := waiters[waiter := version])
    }

    /** start waits for the first step of a flow that has published none. */
    function AwaitFirstStep(waiter: nat): RecordState {
      if step.None? && status == Running then Wait(waiter) else this
    }

    /** A timer or the caller's signal ends the wait. */
    function Wake(waiter: nat): RecordState {
      this.(waiters := waiters - {waiter})
    }

    /** cancel: a failed or cancelled session stays as it is. */
    function Cancel(now: int): RecordState {
      if status == Failed || status == Cancelled then this else Discard().Finish(Cancelled, None, now)
    }
  }

  const PASTE_FIRST := "Paste the full URL from the address bar, or the authorization code."
  const PASTE_AGAIN := "That value held no authorization code for this sign-in. Paste it again."
  const PASTE_KEY := " You can also paste an API key instead."

  function PasteGuide(request: nat, pasteKey: bool): string {
    (if request > 1 then PASTE_AGAIN else PASTE_FIRST) + (if pasteKey then PASTE_KEY else "")
  }

  function NewRecord(id: string, claimProvider: string, pasteKey: bool, now: int): RecordState {
    RecordState(id, claimProvider, pasteKey, Running, None, None, None, 1, now, None, 0, None, None,
                true, false, map[], [], None)
  }

  // ----- the invariant of a record -----

  /** Exactly the pending request is unsettled, and it is the newest. */
  predicate RequestsSettled(r: RecordState) {
    && (r.pending.Some? ==> |r.requests| > 0 && r.pending.value.request == |r.requests| - 1)
    && (forall k :: 0 <= k < |r.requests| ==>
          (r.requests[k].None? <==> r.pending.Some? && r.pending.value.request == k))
  }

  /** Every waiter waits for the present version to change. */
  predicate WaitersCurrent(r: RecordState) {
    forall w :: w in r.waiters ==> r.waiters[w] == r.version
  }

  /** `auth` is an open-url step, and the one last shown if that is what is shown; who awaits input shows a step. */
  predicate LinkInv(r: RecordState) {
    && (r.auth.Some? ==> r.auth.value.OpenUrl?)
    && (r.step.Some? && r.step.value.OpenUrl? ==> r.auth == r.step)
    && (r.status == AwaitingInput ==> r.step.Some?)
  }

  predicate RecordInv(r: RecordState) {
    && (r.status == AwaitingInput <==> r.pending.Some?)
    && (r.aborted <==> r.Terminal())
    && (r.live ==> (r.result.Some? <==> r.status == Completed))
    && (!r.live ==> r.result.None? && r.Terminal())
    && (r.result.Some? ==> r.endpoint.Some? && r.delivered == Some(Delivery(r.result.value, r.endpoint.value)))
    && (r.delivered.Some? ==> IsUsable(r.delivered.value.credential) && (r.status == Completed || r.status == Cancelled))
    && (r.status == Completed ==> r.delivered.Some?)
    && (r.error.Some? <==> r.status == Failed)
    && RequestsSettled(r)
    && WaitersCurrent(r)
    && (r.Terminal() ==> r.waiters == map[])
    && LinkInv(r)
  }

  // ----- what a record may become -----

  /** Failed and cancelled are final; completed can only become cancelled. */
  predicate StatusMayBecome(before: Status, after: Status) {
    && (before == Failed ==> after == Failed)
    && (before == Cancelled ==> after == Cancelled)
    && (before == Completed ==> after == Completed || after == Cancelled)
  }

  /** Later states of a record: see the conjuncts. */
  predicate Evolves(r: RecordState, s: RecordState) {
    && s.id == r.id && s.claimProvider == r.claimProvider
    && r.version <= s.version && (r.version == s.version ==> r.View() == s.View())
    && StatusMayBecome(r.status, s.status)
    && (!r.live ==> !s.live)
    && |r.requests| <= |s.requests|
    && (forall k :: 0 <= k < |r.requests| && r.requests[k].Some? ==> s.requests[k] == r.requests[k])
    && (r.delivered.Some? ==> s.delivered == r.delivered)
  }

  lemma EvolvesTransitive(a: RecordState, b: RecordState, c: RecordState)
    requires Evolves(a, b) && Evolves(b, c)
    ensures Evolves(a, c)
  {
  }

  lemma NewRecordInv(id: string, claimProvider: string, pasteKey: bool, now: int)
    ensures RecordInv(NewRecord(id, claimProvider, pasteKey, now))
  {
  }

  lemma SettleKeeps(r: RecordState, s: Settlement)
    requires RequestsSettled(r)
    ensures r.Settle(s).pending.None? && RequestsSettled(r.Settle(s)) && |r.Settle(s).requests| == |r.requests|
    ensures forall k :: 0 <= k < |r.requests| && r.requests[k].Some? ==> r.Settle(s).requests[k] == r.requests[k]
    ensures r.pending.Some? ==> r.Settle(s).requests[|r.requests| - 1] == Some(s)
  {
  }

  lemma FinishKeeps(r: RecordState, status: Status, error: Option<ErrorCode>, now: int)
    requires RequestsSettled(r)
    ensures RequestsSettled(r.Finish(status, error, now)) && WaitersCurrent(r.Finish(status, error, now))
    ensures r.Finish(status, error, now).pending.None? && |r.Finish(status, error, now).requests| == |r.requests|
    ensures forall k :: 0 <= k < |r.requests| && r.requests[k].Some? ==>
                          r.Finish(status, error, now).requests[k] == r.requests[k]
  {
    SettleKeeps(r.(status := status, error := error, aborted := true), Rejected);
  }

  lemma CompleteKeeps(r: RecordState, c: Credential, endpoint: string, now: int)
    requires RecordInv(r) && IsUsable(c)
    ensures RecordInv(r.Complete(c, endpoint, now)) && Evolves(r, r.Complete(c, endpoint, now))
  {
    FinishKeeps(r.(result := Some(c), endpoint := Some(endpoint), delivered := Some(Delivery(c, endpoint))), Completed, None, now);
  }

  lemma FailKeeps(r: RecordState, code: ErrorCode, now: int)
    requires RecordInv(r)
    ensures RecordInv(r.Fail(code, now)) && Evolves(r, r.Fail(code, now))
  {
    FinishKeeps(r, Failed, Some(code), now);
  }

  lemma CancelKeeps(r: RecordState, now: int)
    requires RecordInv(r)
    ensures RecordInv(r.Cancel(now)) && Evolves(r, r.Cancel(now))
    ensures r.Cancel(now).status == Failed || r.Cancel(now).status == Cancelled
    ensures r.Cancel(now).result.None? && r.Cancel(now).pending.None? && r.Cancel(now).aborted
  {
    FinishKeeps(r.Discard(), Cancelled, None, now);
  }

  /** t awaits a new request; the one r awaited, if any, is rejected. */
  predicate Superseded(r: RecordState, t: RecordState) {
    && t.status == AwaitingInput && t.pending.Some? && t.pending.value.request == |r.requests|
    && |t.requests| == |r.requests| + 1
    && (r.pending.Some? && r.pending.value.request < |r.requests| ==> t.requests[r.pending.value.request] == Some(Rejected))
  }

  lemma AwaitInputKeeps(r: RecordState, step: LoginStep, allowEmpty: bool, signalAborted: bool, now: int)
    requires RecordInv(r)
    ensures RecordInv(r.AwaitInput(step, allowEmpty, signalAborted, now))
    ensures Evolves(r, r.AwaitInput(step, allowEmpty, signalAborted, now))
    ensures r.Terminal() || signalAborted ==> r.AwaitInput(step, allowEmpty, signalAborted, now) == r
    ensures var t := r.AwaitInput(step, allowEmpty, signalAborted, now);
      !r.Terminal() && !signalAborted ==> Superseded(r, t) && t.step == Some(step) && t.pending.value.allowEmpty == allowEmpty
  {
    SettleKeeps(r, Rejected);
  }

  lemma AbortRequestKeeps(r: RecordState, request: nat, now: int)
    requires RecordInv(r)
    ensures RecordInv(r.AbortRequest(request, now)) && Evolves(r, r.AbortRequest(request, now))
    ensures var t := r.AbortRequest(request, now);
      if r.pending.Some? && r.pending.value.request == request
      then t.status == Running && t.requests == r.requests[..|r.requests| - 1] + [Some(Rejected)]
      else t == r
  {
    SettleKeeps(r, Rejected);
  }

  lemma AcceptInputKeeps(r: RecordState, value: string, now: int)
    requires RecordInv(r) && r.status == AwaitingInput
    ensures RecordInv(r.AcceptInput(value, now)) && Evolves(r, r.AcceptInput(value, now))
    ensures var s := r.AcceptInput(value, now);
      s.requests == r.requests[..|r.requests| - 1] + [Some(Resolved(value))]
  {
    SettleKeeps(r.(status := Running), Resolved(value));
  }

  lemma SetStepKeeps(r: RecordState, step: LoginStep, now: int)
    requires RecordInv(r)
    ensures RecordInv(r.SetStep(step, now)) && Evolves(r, r.SetStep(step, now))
    ensures !r.Terminal() ==> r.SetStep(step, now).step == Some(step) && r.SetStep(step, now).version > r.version
  {
  }

  lemma ManualCodeKeeps(r: RecordState, signalAborted: bool, now: int)
    requires RecordInv(r)
    ensures RecordInv(r.ManualCode(signalAborted, now)) && Evolves(r, r.ManualCode(signalAborted, now))
    ensures var t := r.ManualCode(signalAborted, now);
      t.pasteRequests == r.pasteRequests + 1 && (t.View() != r.View() ==> Superseded(r, t) && !t.pending.value.allowEmpty)
  {
    var counted := r.(pasteRequests := r.pasteRequests + 1);
    AwaitInputKeeps(counted, PasteCode(PasteGuide(counted.pasteRequests, r.pasteKey)), false, signalAborted, now);
  }

  // ----- conservation of input requests -----

  function CountResolved(requests: seq<Option<Settlement>>): nat {
    if requests == [] then 0
    else CountResolved(requests[1..]) + (if requests[0].Some? && requests[0].value.Resolved? then 1 else 0)
  }

  function CountRejected(requests: seq<Option<Settlement>>): nat {
    if requests == [] then 0
    else CountRejected(requests[1..]) + (if requests[0] == Some(Rejected) then 1 else 0)
  }

  function CountOpen(requests: seq<Option<Settlement>>): nat {
    if requests == [] then 0
    else CountOpen(requests[1..]) + (if requests[0].None? then 1 else 0)
  }

  lemma {:induction false} CountsAddUp(requests: seq<Option<Settlement>>)
    ensures |requests| == CountResolved(requests) + CountRejected(requests) + CountOpen(requests)
  {
    if requests != [] {
      CountsAddUp(requests[1..]);
    }
  }

  lemma {:induction false} CountOpenOfLast(requests: seq<Option<Settlement>>, open: bool)
    requires open ==> requests != []
    requires forall k :: 0 <= k < |requests| ==> (requests[k].None? <==> open && k == |requests| - 1)
    ensures CountOpen(requests) == if open then 1 else 0
  {
    if requests != [] {
      assert forall k :: 0 <= k < |requests| - 1 ==> requests[1..][k] == requests[k + 1];
      CountOpenOfLast(requests[1..], open && |requests| > 1);
    }
  }

  /** Published requests are resolved, rejected, or the one the session awaits. */
  lemma RequestsConserved(r: RecordState)
    requires RecordInv(r)
    ensures |r.requests| == CountResolved(r.requests) + CountRejected(r.requests)
                            + (if r.status == AwaitingInput then 1 else 0)
  {
    CountsAddUp(r.requests);
    CountOpenOfLast(r.requests, r.pending.Some?);
  }

  // ----- the record that holds the state -----

  class LoginSessionRecord {
    const id: string
    const claimProvider: string
    const pasteKey: bool
    var status: Status
    var step: Option<LoginStep>
    var auth: Option<LoginStep>
    var error: Option<ErrorCode>
    var version: nat
    var lastActivity: int
    var pending: Option<Pending>
    var pasteRequests: nat
    var result: Option<Credential>
    var endpoint: Option<string>
    var live: bool
    var aborted: bool
    var waiters: map<nat, nat>
    var requests: seq<Option<Settlement>> // the promises handed to the flow
    ghost var delivered: Option<Delivery>

    ghost function State(): RecordState
      reads this
    {
      RecordState(id, claimProvider, pasteKey, status, step, auth, error, version, lastActivity, pending,
                  pasteRequests, result, endpoint, live, aborted, waiters, requests, delivered)
    }

    function View(): (s: Snapshot)
      reads this
      ensures s == State().View()
    {
      Snapshot(id, status, step, auth, error, version)
    }

    constructor (id: string, claimProvider: string, pasteKey: bool, now: int)
      ensures State() == NewRecord(id, claimProvider, pasteKey, now)
    {
      this.id, this.claimProvider, this.pasteKey := id, claimProvider, pasteKey;
      status, step, auth, error := Running, None, None, None;
      version, lastActivity := 1, now;
      pending, pasteRequests := None, 0;
      result, endpoint, live, aborted := None, None, true, false;
      waiters, requests, delivered := map[], [], None;
    }

    method Touch(now: int)
      modifies this
      ensures State() == old(State()).Touch(now)
    {
      lastActivity := now;
    }

    /** Records a change and wakes every waiter of a copy of the set; each removes itself. */
    method Bump(now: int)
      modifies this
      ensures State() == old(State()).Bump(now)
    {
      version := version + 1;
      lastActivity := now;
      var copy := waiters.Keys;
      while copy != {}
        invariant waiters.Keys == copy
        invariant State() == old(State()).Bump(now).(waiters := waiters)
        decreases copy
      {
        var w :| w in copy;
        Wake(w);
        copy := copy - {w};
      }
      assert waiters == map[];
    }

    method Wake(waiter: nat)
      modifies this
      ensures State() == old(State()).Wake(waiter)
    {
      waiters := waiters - {waiter};
    }

    method WaitForChange(waiter: nat)
      modifies this
      ensures State() == old(State()).Wait(waiter)
    {
      waiters := waiters[waiter := version];
    }

    /** Calls the resolve or reject function of the pending request and forgets it. */
    method SettlePending(s: Settlement)
      modifies this
      ensures State() == old(State()).Settle(s)
    {
      if pending.Some? {
        if pending.value.request < |requests| {
          requests := requests[pending.value.request := Some(s)];
        }
        pending := None;
      }
    }

    method SetStep(next: LoginStep, now: int) returns (accepted: bool)
      modifies this
      ensures State() == old(State()).SetStep(next, now)
      ensures accepted <==> !old(State()).Terminal()
    {
      if IsTerminal(status) {
        return false;
      }
      step := Some(next);
      if next.OpenUrl? {
        auth := Some(next);
      }
      Bump(now);
      return true;
    }

    method Finish(final: Status, code: Option<ErrorCode>, now: int)
      modifies this
      ensures State() == old(State()).Finish(final, code, now)
    {
      status := final;
      error := code;
      aborted := true;
      SettlePending(Rejected);
      Bump(now);
    }

    method Complete(c: Credential, e: string, now: int)
      modifies this
      ensures State() == old(State()).Complete(c, e, now)
    {
      if IsTerminal(status) || !live {
        return;
      }
      hide RecordState.Finish;
      ghost var before := State();
      result := Some(c);
      endpoint := Some(e);
      delivered := Some(Delivery(c, e));
      assert State() == before.(result := Some(c), endpoint := Some(e), delivered := Some(Delivery(c, e)));
      Finish(Completed, None, now);
    }

    method Discard()
      modifies this
      ensures State() == old(State()).Discard()
    {
      result := None;
      endpoint := None;
    }

    method Fail(code: ErrorCode, now: int)
      modifies this
      ensures State() == old(State()).Fail(code, now)
    {
      if IsTerminal(status) || !live {
        return;
      }
      Finish(Failed, Some(code), now);
    }

    method AwaitInput(next: LoginStep, allowEmpty: bool, signalAborted: bool, now: int)
      modifies this
      ensures State() == old(State()).AwaitInput(next, allowEmpty, signalAborted, now)
    {
      if IsTerminal(status) || aborted || signalAborted {
        return;
      }
      SettlePending(Rejected);
      pending := Some(Pending(|requests|, allowEmpty));
      requests := requests + [None];
      status := AwaitingInput;
      var _ := SetStep(next, now);
    }

    method ManualCode(signalAborted: bool, now: int)
      modifies this
      ensures State() == old(State()).ManualCode(signalAborted, now)
    {
      pasteRequests := pasteRequests + 1;
      AwaitInput(PasteCode(PasteGuide(pasteRequests, pasteKey)), false, signalAborted, now);
    }

    method AbortRequest(request: nat, now: int)
      modifies this
      ensures State() == old(State()).AbortRequest(request, now)
    {
      if pending.Some? && pending.value.request == request {
        SettlePending(Rejected);
        if status == AwaitingInput {
          status := Running;
          Bump(now);
        }
      }
    }

    method AcceptInput(value: string, now: int)
      modifies this
      ensures State() == old(State()).AcceptInput(value, now)
    {
      status := Running;
      SettlePending(Resolved(value));
      Bump(now);
    }

    method Cancel(now: int)
      modifies this
      ensures State() == old(State()).Cancel(now)
    {
      if status != Failed && status != Cancelled {
        Discard();
        Finish(Cancelled, None, now);
      }
    }
  }
}
