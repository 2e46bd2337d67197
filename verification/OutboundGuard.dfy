/**
 * The guarded fetch of the hosted worker: every target is validated and redirects are followed
 * by hand (section 15.4 of RFC 9110 and "HTTP-redirect fetch" of the WHATWG Fetch Standard).
 */
module OutboundGuard {
  import opened Wrappers

  /** URL parsing is the host's: a URL is its origin and the rest. */
  datatype Url = Url(origin: string, rest: string)

  datatype Body = NoBody | Bytes(data: string) | Stream(id: nat)

  /** Header names in lower case. */
  type Headers = map<string, string>

  datatype Mode = Follow | Manual | Refuse

  /** A Request object; its own body is a stream. */
  datatype Request = Request(url: Url, verb: string, headers: Headers, stream: Option<nat>, redirect: Mode)

  /** A text or URL the host may fail to parse, or a Request. */
  datatype Input = Address(url: Option<Url>) | Object(request: Request)

  /** The init argument; an absent member is undefined, and `Some(NoBody)` is a body of null. */
  datatype Init = Init(verb: Option<string>, headers: Option<Headers>, body: Option<Body>, redirect: Option<Mode>, unix: bool)

  datatype Attempt = Attempt(verb: string, headers: Headers, body: Body, replayable: bool)

  datatype Response = Response(status: int, location: Option<string>, cancels: bool)

  datatype Event =
    | Checked(url: Url, admitted: bool)
    | Sent(url: Url, attempt: Attempt, body: Body, answer: Option<Response>)

  type Trace = seq<Event>

  /** The world: what validation says, what comes back, and how locations resolve. */
  datatype Host = Host(
    admits: (Trace, Url) -> bool,
    answers: (Trace, Url, Attempt, Body) -> Option<Response>,
    resolves: (string, Url) -> Option<Url>)

  datatype Outcome =
    | Returned(response: Response)
    | EndpointRefused
    | InvalidUrl
    | RedirectRefused
    | StreamCannotFollow
    | NetworkFailed
    | CancelFailed

  const BODY_HEADERS: seq<string> :=
    ["content-type", "content-length", "content-encoding", "content-language", "content-location"]

  const CREDENTIAL_HEADERS: seq<string> :=
    ["authorization", "proxy-authorization", "cookie", "x-api-key", "api-key", "x-goog-api-key"]

  predicate IsRedirect(status: int) {
    status in {301, 302, 303, 307, 308}
  }

  function Upper(text: string): string {
    if text == "" then ""
    else [if 'a' <= text[0] <= 'z' then text[0] - 'a' + 'A' else text[0]] + Upper(text[1..])
  }

  function GetOr<T>(o: Option<T>, default: T): T {
    match o
    case Some(v) => v
    case None => default
  }

  function RequestOf(input: Input): Option<Request> {
    if input.Object? then Some(input.request) else None
  }

  function FirstAttempt(input: Input, init: Init): Attempt {
    var request := RequestOf(input);
    var body := GetOr(init.body, NoBody);
    Attempt(
      Upper(GetOr(init.verb, if request.Some? then request.value.verb else "GET")),
      GetOr(init.headers, if request.Some? then request.value.headers else map[]),
      body,
      !body.Stream? && !(init.body.None? && request.Some? && request.value.stream.Some?))
  }

  /** The body fetch sends first: that of init, or else the request's own. */
  function FirstBody(input: Input, init: Init): Body {
    var own := RequestOf(input);
    if init.body.Some? && init.body.value != NoBody then init.body.value
    else if own.Some? && own.value.stream.Some? then Stream(own.value.stream.value)
    else NoBody
  }

  /** The redirect mode of init, of the request, or `follow`. */
  function ModeOf(input: Input, init: Init): Mode {
    GetOr(init.redirect, if input.Object? then input.request.redirect else Follow)
  }

  function UrlOf(input: Input): Option<Url> {
    match input
    case Address(url) => url
    case Object(request) => Some(request.url)
  }

  // ----- one hop -----

  /** 303 turns anything but HEAD into GET; 301 and 302 turn POST into GET. */
  predicate BecomesGet(status: int, verb: string) {
    (status == 303 && verb != "HEAD") || ((status == 301 || status == 302) && verb == "POST")
  }

  function Names(list: seq<string>): set<string> {
    set n | n in list
  }

  /** What the next attempt is, by the rules of the Fetch Standard. */
  predicate IsHop(prev: Attempt, status: int, from: Url, dest: Url, next: Attempt) {
    var get := BecomesGet(status, prev.verb);
    && (get || prev.replayable)
    && next.verb == (if get then "GET" else prev.verb)
    && next.body == (if get then NoBody else prev.body)
    && next.replayable
    && next.headers == prev.headers - (if get then Names(BODY_HEADERS) else {})
                       - (if from.origin != dest.origin then Names(CREDENTIAL_HEADERS) else {})
  }

  method Without(headers: Headers, names: seq<string>) returns (left: Headers)
    ensures left == headers - Names(names)
  {
    left := headers;
    for i := 0 to |names|
      invariant left == headers - Names(names[..i])
    {
      assert Names(names[..i + 1]) == Names(names[..i]) + {names[i]};
      left := left - {names[i]};
    }
    assert names[..|names|] == names;
  }

  method RedirectedAttempt(attempt: Attempt, status: int, from: Url, dest: Url) returns (r: Option<Attempt>)
    ensures r.Some? <==> BecomesGet(status, attempt.verb) || attempt.replayable
    ensures r.Some? ==> IsHop(attempt, status, from, dest, r.value)
  {
    var next := attempt;
    if BecomesGet(status, next.verb) {
      var left := Without(next.headers, BODY_HEADERS);
      next := next.(verb := "GET", body := NoBody, replayable := true, headers := left);
    } else if !next.replayable {
      return None;
    }
    if from.origin != dest.origin {
      var left := Without(next.headers, CREDENTIAL_HEADERS);
      next := next.(headers := left);
    }
    return Some(next);
  }

  // ----- traces -----

  /** The requests that were sent, in order. */
  function Sends(trace: Trace): (r: Trace)
    ensures forall i :: 0 <= i < |r| ==> r[i].Sent?
  {
    if trace == [] then []
    else Sends(trace[..|trace| - 1]) + (if trace[|trace| - 1].Sent? then [trace[|trace| - 1]] else [])
  }

  /** Every request is directly preceded by a successful validation of its own target. */
  predicate EachSendValidated(trace: Trace) {
    forall i :: 0 <= i < |trace| && trace[i].Sent? ==> i > 0 && trace[i - 1] == Checked(trace[i].url, true)
  }

  /** Each event is what the host gave at that moment. */
  ghost predicate FollowsHost(trace: Trace, host: Host) {
    forall i :: 0 <= i < |trace| ==>
      match trace[i]
      case Checked(url, admitted) => admitted == host.admits(trace[..i], url)
      case Sent(url, attempt, body, answer) => answer == host.answers(trace[..i], url, attempt, body)
  }

  /** A later request follows from the answer to the one before. */
  ghost predicate IsFollowed(host: Host, a: Event, b: Event)
    requires a.Sent? && b.Sent?
  {
    && a.answer.Some? && IsRedirect(a.answer.value.status)
    && a.answer.value.location.Some? && host.resolves(a.answer.value.location.value, a.url) == Some(b.url)
    && IsHop(a.attempt, a.answer.value.status, a.url, b.url, b.attempt)
    && b.body == b.attempt.body
  }

  ghost predicate IsChain(host: Host, chain: Trace) {
    && (forall i :: 0 <= i < |chain| ==> chain[i].Sent?)
    && (forall i :: 0 < i < |chain| ==> IsFollowed(host, chain[i - 1], chain[i]))
  }

  /** The chain starts with the request the caller asked for. */
  ghost predicate StartsWith(chain: Trace, input: Input, init: Init) {
    chain != [] ==>
      chain[0].Sent? && UrlOf(input) == Some(chain[0].url)
      && chain[0].attempt == FirstAttempt(input, init) && chain[0].body == FirstBody(input, init)
  }

  function MaxSends(maxRedirects: int, mode: Mode): int {
    if mode != Follow || maxRedirects < 0 then 1 else maxRedirects + 1
  }

  /** Why a call ends as it does. */
  ghost predicate Explains(host: Host, outcome: Outcome, trace: Trace, input: Input, init: Init, maxRedirects: int) {
    var mode := ModeOf(input, init);
    var more := mode == Follow && |Sends(trace)| < MaxSends(maxRedirects, Follow);
    match outcome
    case Returned(r) =>
      && trace != [] && trace[|trace| - 1].Sent? && trace[|trace| - 1].answer == Some(r)
      && (mode == Manual || !IsRedirect(r.status) || GetOr(r.location, "") == "")
    case EndpointRefused =>
      || (init.unix && trace == [])
      || (!init.unix && exists url :: UrlOf(input) == Some(url) && trace == [Checked(url, false)])
      || (mode == Follow && IsRefusedHop(host, trace))
      || (mode == Follow && !more && EndsInRedirect(trace) && trace[|trace| - 1].answer.value.cancels)
    case InvalidUrl =>
      || (!init.unix && trace == [] && UrlOf(input).None?)
      || (more && EndsInRedirect(trace) && CannotResolve(host, trace))
    case RedirectRefused => mode == Refuse && EndsInRedirect(trace) && trace[|trace| - 1].answer.value.cancels
    case StreamCannotFollow => more && EndsInRedirect(trace) && NeedsStreamAgain(trace)
    case NetworkFailed => trace != [] && trace[|trace| - 1].Sent? && trace[|trace| - 1].answer.None?
    case CancelFailed => mode != Manual && EndsInRedirect(trace) && !trace[|trace| - 1].answer.value.cancels
  }

  /** The location of the redirect the trace ends in is no URL. */
  ghost predicate CannotResolve(host: Host, trace: Trace)
    requires EndsInRedirect(trace)
  {
    var last := trace[|trace| - 1];
    last.answer.value.cancels && host.resolves(last.answer.value.location.value, last.url).None?
  }

  /** The redirect the trace ends in keeps the method, and with it a body that cannot be sent again. */
  predicate NeedsStreamAgain(trace: Trace)
    requires EndsInRedirect(trace)
  {
    var last := trace[|trace| - 1];
    last.answer.value.cancels && !last.attempt.replayable && !BecomesGet(last.answer.value.status, last.attempt.verb)
  }

  /** The trace ends in the refusal of the very target a redirect named. */
  ghost predicate IsRefusedHop(host: Host, trace: Trace) {
    && |trace| > 1 && EndsInRedirect(trace[..|trace| - 1])
    && var last := trace[|trace| - 2];
       last.answer.value.cancels
       && exists url :: host.resolves(last.answer.value.location.value, last.url) == Some(url)
                        && trace[|trace| - 1] == Checked(url, false)
  }

  predicate EndsInRedirect(trace: Trace) {
    && trace != [] && trace[|trace| - 1].Sent? && trace[|trace| - 1].answer.Some?
    && IsRedirect(trace[|trace| - 1].answer.value.status)
    && GetOr(trace[|trace| - 1].answer.value.location, "") != ""
  }

  /** Validates a target and, when it is admitted, sends the request. */
  method ValidateAndSend(host: Host, trace: Trace, url: Url, attempt: Attempt, body: Body)
    returns (answer: Option<Response>, next: Trace)
    requires FollowsHost(trace, host) && EachSendValidated(trace)
    ensures FollowsHost(next, host) && EachSendValidated(next)
    ensures var admitted := host.admits(trace, url);
      next == trace + [Checked(url, admitted)] + (if admitted then [Sent(url, attempt, body, answer)] else [])
    ensures Sends(next) == Sends(trace) + (if host.admits(trace, url) then [Sent(url, attempt, body, answer)] else [])
    ensures !host.admits(trace, url) ==> answer.None?
  {
    hide FollowsHost, EachSendValidated, Sends;
    ValidatedAppend(trace, url, attempt, body);
    next := trace + [Checked(url, host.admits(trace, url))];
    SendsAppend(trace, Checked(url, host.admits(trace, url)));
    FollowsAppend(trace, Checked(url, host.admits(trace, url)), host);
    answer := None;
    if host.admits(trace, url) {
      answer := host.answers(next, url, attempt, body);
      SendsAppend(next, Sent(url, attempt, body, answer));
      FollowsAppend(next, Sent(url, attempt, body, answer), host);
      next := next + [Sent(url, attempt, body, answer)];
    }
  }

  /** A check keeps every request validated, and so does a request right after a check that admits it. */
  lemma ValidatedAppend(trace: Trace, url: Url, attempt: Attempt, body: Body)
    requires EachSendValidated(trace)
    ensures forall admitted: bool :: EachSendValidated(trace + [Checked(url, admitted)])
    ensures forall answer: Option<Response> ::
              EachSendValidated(trace + [Checked(url, true)] + [Sent(url, attempt, body, answer)])
  {
  }

  lemma EmptyTrace(host: Host)
    ensures FollowsHost([], host) && EachSendValidated([]) && IsChain(host, []) && Sends([]) == []
  {
  }

  lemma FollowsAppend(trace: Trace, e: Event, host: Host)
    requires FollowsHost(trace, host)
    requires match e
             case Checked(url, admitted) => admitted == host.admits(trace, url)
             case Sent(url, attempt, body, answer) => answer == host.answers(trace, url, attempt, body)
    ensures FollowsHost(trace + [e], host)
  {
    var longer := trace + [e];
    forall i | 0 <= i < |longer|
      ensures match longer[i]
              case Checked(url, admitted) => admitted == host.admits(longer[..i], url)
              case Sent(url, attempt, body, answer) => answer == host.answers(longer[..i], url, attempt, body)
    {
      assert longer[..i] == if i < |trace| then trace[..i] else trace;
    }
  }

  lemma ChainAppend(host: Host, chain: Trace, e: Event)
    requires IsChain(host, chain) && e.Sent?
    requires chain != [] ==> IsFollowed(host, chain[|chain| - 1], e)
    ensures IsChain(host, chain + [e])
  {
  }

  lemma SendsAppend(trace: Trace, e: Event)
    ensures Sends(trace + [e]) == Sends(trace) + (if e.Sent? then [e] else [])
  {
    assert (trace + [e])[..|trace|] == trace;
  }

  /** The state of the redirect loop: the last request of a sound trace and its answer. */
  ghost predicate IsAt(host: Host, trace: Trace, url: Url, attempt: Attempt, response: Response) {
    && FollowsHost(trace, host) && EachSendValidated(trace) && IsChain(host, Sends(trace))
    && trace != [] && Sends(trace) != [] && trace[|trace| - 1] == Sends(trace)[|Sends(trace)| - 1]
    && trace[|trace| - 1].url == url && trace[|trace| - 1].attempt == attempt
    && trace[|trace| - 1].answer == Some(response)
  }

  datatype Step = Stop(outcome: Outcome) | Continue(url: Url, attempt: Attempt, response: Response)

  /** The rest of the loop body once a redirect may be followed: resolve, rewrite, validate, send. */
  method FollowRedirect(host: Host, trace: Trace, url: Url, attempt: Attempt, response: Response)
    returns (step: Step, after: Trace)
    requires IsAt(host, trace, url, attempt, response)
    requires IsRedirect(response.status) && response.location.Some?
    ensures FollowsHost(after, host) && EachSendValidated(after) && IsChain(host, Sends(after))
    ensures step.Continue? ==> IsAt(host, after, step.url, step.attempt, step.response)
    ensures Sends(after) == Sends(trace) || (|Sends(after)| == |Sends(trace)| + 1 && Sends(after)[..|Sends(trace)|] == Sends(trace))
    ensures step.Continue? ==> |Sends(after)| == |Sends(trace)| + 1
    ensures step.Stop? ==>
              match step.outcome
              case EndpointRefused =>
                exists next :: host.resolves(response.location.value, url) == Some(next) && after == trace + [Checked(next, false)]
              case InvalidUrl => after == trace && host.resolves(response.location.value, url).None?
              case StreamCannotFollow => after == trace && !attempt.replayable && !BecomesGet(response.status, attempt.verb)
              case NetworkFailed => after != [] && after[|after| - 1].Sent? && after[|after| - 1].answer.None?
              case _ => false
  {
    hide FollowsHost, EachSendValidated, IsChain, IsHop, Sends;
    var next := host.resolves(response.location.value, url);
    if next.None? {
      return Stop(InvalidUrl), trace;
    }
    var redirected := RedirectedAttempt(attempt, response.status, url, next.value);
    if redirected.None? {
      return Stop(StreamCannotFollow), trace;
    }
    var answer;
    answer, after := ValidateAndSend(host, trace, next.value, redirected.value, redirected.value.body);
    if !host.admits(trace, next.value) {
      assert Sends(after) == Sends(trace) + [] == Sends(trace);
      return Stop(EndpointRefused), after;
    }
    ChainAppend(host, Sends(trace), Sent(next.value, redirected.value, redirected.value.body, answer));
    if answer.None? {
      return Stop(NetworkFailed), after;
    }
    return Continue(next.value, redirected.value, answer.value), after;
  }

  method GuardedFetch(host: Host, input: Input, init: Init, maxRedirects: int) returns (outcome: Outcome, trace: Trace)
    ensures FollowsHost(trace, host) && EachSendValidated(trace)
    ensures IsChain(host, Sends(trace)) && StartsWith(Sends(trace), input, init)
    ensures |Sends(trace)| <= MaxSends(maxRedirects, ModeOf(input, init))
    ensures Explains(host, outcome, trace, input, init, maxRedirects)
    ensures !init.unix && UrlOf(input).Some? && host.admits([], UrlOf(input).value) <==> |Sends(trace)| >= 1
  {
    hide FollowsHost, EachSendValidated, IsChain, IsHop, FirstAttempt, FirstBody, BecomesGet, Sends, IsRedirect;
    hide CannotResolve, NeedsStreamAgain, IsRefusedHop;
    trace := [];
    EmptyTrace(host);
    if init.unix {
      return EndpointRefused, trace;
    }
    if UrlOf(input).None? {
      return InvalidUrl, trace;
    }
    var url := UrlOf(input).value;
    var mode := ModeOf(input, init);
    var attempt := FirstAttempt(input, init);
    var answer;
    answer, trace := ValidateAndSend(host, [], url, attempt, FirstBody(input, init));
    ChainAppend(host, [], Sent(url, attempt, FirstBody(input, init), answer));
    if !host.admits([], url) {
      return EndpointRefused, trace;
    }
    if answer.None? {
      return NetworkFailed, trace;
    }
    if mode == Manual {
      return Returned(answer.value), trace;
    }
    outcome, trace := RedirectLoop(host, trace, url, attempt, answer.value, input, init, maxRedirects);
  }

  /** Follows redirects one by one until an answer is final or must not be followed. */
  method RedirectLoop(host: Host, start: Trace, firstUrl: Url, first: Attempt, answer: Response,
                      input: Input, init: Init, maxRedirects: int)
    returns (outcome: Outcome, trace: Trace)
    requires IsAt(host, start, firstUrl, first, answer) && |Sends(start)| == 1 && ModeOf(input, init) != Manual
    ensures FollowsHost(trace, host) && EachSendValidated(trace) && IsChain(host, Sends(trace))
    ensures 1 <= |Sends(trace)| <= MaxSends(maxRedirects, ModeOf(input, init)) && Sends(trace)[0] == Sends(start)[0]
    ensures Explains(host, outcome, trace, input, init, maxRedirects)
  {
    hide FollowsHost, EachSendValidated, IsChain, Sends, IsRedirect, BecomesGet;
    var mode := ModeOf(input, init);
    trace := start;
    var url, attempt, response := firstUrl, first, answer;
    var hops := 0;
    while IsRedirect(response.status)
      invariant 0 <= hops && (hops == 0 || (hops <= maxRedirects && mode == Follow))
      invariant IsAt(host, trace, url, attempt, response)
      invariant |Sends(trace)| == hops + 1 && Sends(trace)[0] == Sends(start)[0]
      decreases maxRedirects - hops
    {
      if GetOr(response.location, "") == "" {
        return Returned(response), trace;
      }
      if !response.cancels {
        return CancelFailed, trace;
      }
      if mode == Refuse {
        return RedirectRefused, trace;
      }
      if hops >= maxRedirects {
        return EndpointRefused, trace;
      }
      ghost var last, before := trace, Sends(trace);
      var step;
      step, trace := FollowRedirect(host, trace, url, attempt, response);
      assert Sends(trace)[0] == before[0];
      if step.Stop? {
        if step.outcome.EndpointRefused? {
          assert trace[..|trace| - 1] == last;
        }
        return step.outcome, trace;
      }
      url, attempt, response := step.url, step.attempt, step.response;
      hops := hops + 1;
    }
    return Returned(response), trace;
  }

  // ----- what holds along every chain -----

  predicate CarriesNone(headers: Headers, names: seq<string>) {
    forall n :: n in names ==> n !in headers
  }

  /** Headers are only ever removed. */
  lemma {:induction false} HeadersShrink(host: Host, chain: Trace, i: nat, j: nat)
    requires IsChain(host, chain) && i <= j < |chain|
    ensures chain[j].attempt.headers.Keys <= chain[i].attempt.headers.Keys
  {
    if i < j {
      HeadersShrink(host, chain, i, j - 1);
      assert IsFollowed(host, chain[j - 1], chain[j]);
    }
  }

  /**
   * Once a hop changes origin, no later request carries a credential header, wherever the chain
   * goes afterwards.
   */
  lemma CredentialsStayDropped(host: Host, chain: Trace, i: nat, j: nat)
    requires IsChain(host, chain) && i + 1 < |chain| && i < j < |chain|
    requires chain[i].url.origin != chain[i + 1].url.origin
    ensures CarriesNone(chain[j].attempt.headers, CREDENTIAL_HEADERS)
  {
    assert IsFollowed(host, chain[i], chain[i + 1]);
    HeadersShrink(host, chain, i + 1, j);
    forall n | n in CREDENTIAL_HEADERS
      ensures n !in chain[j].attempt.headers
    {
      assert n in Names(CREDENTIAL_HEADERS);
      assert n !in chain[i + 1].attempt.headers;
    }
  }

  /** Once a request has become GET, every later one has no body and no body headers. */
  lemma BodyStaysDropped(host: Host, chain: Trace, i: nat, j: nat)
    requires IsChain(host, chain) && i + 1 < |chain| && i < j < |chain|
    requires chain[i].answer.Some? && BecomesGet(chain[i].answer.value.status, chain[i].attempt.verb)
    ensures chain[j].body == NoBody && CarriesNone(chain[j].attempt.headers, BODY_HEADERS)
  {
    assert IsFollowed(host, chain[i], chain[i + 1]);
    HeadersShrink(host, chain, i + 1, j);
    BodyAfter(host, chain, i + 1, j);
    forall n | n in BODY_HEADERS
      ensures n !in chain[j].attempt.headers
    {
      assert n in Names(BODY_HEADERS);
      assert n !in chain[i + 1].attempt.headers;
    }
  }

  /** A body is passed on unchanged or dropped. */
  lemma {:induction false} BodyAfter(host: Host, chain: Trace, i: nat, j: nat)
    requires IsChain(host, chain) && 0 < i <= j < |chain|
    ensures chain[j].body == chain[i].body || chain[j].body == NoBody
  {
    if i < j {
      BodyAfter(host, chain, i, j - 1);
      assert IsFollowed(host, chain[j - 1], chain[j]) && IsFollowed(host, chain[i - 1], chain[i]);
      assert j - 1 > 0 ==> IsFollowed(host, chain[j - 2], chain[j - 1]);
    } else {
      assert IsFollowed(host, chain[i - 1], chain[i]);
    }
  }

  /** A stream, which cannot be replayed, is sent with the first request only. */
  lemma {:induction false} StreamSentOnce(host: Host, chain: Trace, input: Input, init: Init, j: nat)
    requires IsChain(host, chain) && StartsWith(chain, input, init) && 0 < j < |chain|
    ensures !chain[j].body.Stream?
  {
    assert IsFollowed(host, chain[j - 1], chain[j]);
    if j > 1 {
      StreamSentOnce(host, chain, input, init, j - 1);
      assert IsFollowed(host, chain[j - 2], chain[j - 1]);
    }
  }

  /** Method and attempt never change along a chain of 307 and 308 answers. */
  lemma {:induction false} SameAttemptBody(host: Host, chain: Trace, j: nat)
    requires IsChain(host, chain) && j < |chain|
    requires forall i :: 0 <= i < j ==> chain[i].answer.Some? && chain[i].answer.value.status in {307, 308}
    ensures chain[j].attempt.verb == chain[0].attempt.verb && chain[j].attempt.body == chain[0].attempt.body
  {
    if j > 0 {
      SameAttemptBody(host, chain, j - 1);
      assert IsFollowed(host, chain[j - 1], chain[j]);
    }
  }

  /** A Request with a stream of its own, over which init sets a body of null. */
  predicate NullsOwnStream(input: Input, init: Init) {
    init.body == Some(NoBody) && RequestOf(input).Some? && RequestOf(input).value.stream.Some?
  }

  /**
   * A chain of 307 and 308 answers keeps the method, and the body that is sent, except when init sets a
   * body of null over the Request's own stream: fetch sends that stream, the later requests nothing.
   */
  lemma PreservingRedirects(host: Host, chain: Trace, input: Input, init: Init, j: nat)
    requires IsChain(host, chain) && StartsWith(chain, input, init) && 0 < j < |chain|
    requires forall i :: 0 <= i < j ==> chain[i].answer.Some? && chain[i].answer.value.status in {307, 308}
    ensures chain[j].attempt.verb == chain[0].attempt.verb
    ensures chain[j].body == chain[0].body <==> !NullsOwnStream(input, init)
    ensures NullsOwnStream(input, init) ==> chain[0].body.Stream? && chain[j].body == NoBody
  {
    SameAttemptBody(host, chain, j);
    assert IsFollowed(host, chain[0], chain[1]);
    assert IsFollowed(host, chain[j - 1], chain[j]);
  }

  /** A POST whose stream is sent first and dropped on a 307, because init says its body is null. */
  lemma NullBodyDropsStream() returns (host: Host, chain: Trace, input: Input, init: Init)
    ensures IsChain(host, chain) && StartsWith(chain, input, init) && |chain| == 2
    ensures chain[0].answer.Some? && chain[0].answer.value.status == 307
    ensures chain[0].attempt.verb == chain[1].attempt.verb == "POST"
    ensures chain[0].body.Stream? && chain[1].body == NoBody
  {
    var url := Url("https://a", "/");
    host := Host((_, _) => true, (_, _, _, _) => None, (_, _) => Some(url));
    input := Object(Request(url, "POST", map[], Some(0), Follow));
    init := Init(None, None, Some(NoBody), None, false);
    var first := FirstAttempt(input, init);
    assert first == Attempt("POST", map[], NoBody, true) by {
      assert Upper("POST") == "POST";
    }
    var sent := Sent(url, first, Stream(0), Some(Response(307, Some("/"), true)));
    var next := Sent(url, first, NoBody, None);
    assert IsFollowed(host, sent, next);
    chain := [sent, next];
  }
}
