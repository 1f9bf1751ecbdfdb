/** How one attempt counts, what the caller answers upward, and how that answer is read by the next caller
    (besdk/calls/outcome.py, besdk/errs.py, besdk/errwire.py). */
module Calls {
  import opened Wrappers
  import Breaker
  import Budget

  datatype Code =
    | OK | INVALID_ARGUMENT | FAILED_PRECONDITION | OUT_OF_RANGE | UNAUTHENTICATED | PERMISSION_DENIED | NOT_FOUND
    | ALREADY_EXISTS | ABORTED | RESOURCE_EXHAUSTED | CANCELLED | INTERNAL | UNKNOWN | DATA_LOSS | UNIMPLEMENTED
    | UNAVAILABLE | DEADLINE_EXCEEDED

  /** The platform's reasons that this model tells apart, and any other reason by name. */
  datatype Reason =
    | DependencyUnavailable | CircuitOpen | DeadlineBudgetExhausted | ResultUnknown | OutboundLimit | DeadlineExceeded
    | RequestCancelled | AuthorizationUnprovable | Internal | Named(name: string)

  /** An error object: its reason, whether its domain is the platform's, its code and its HTTP status. */
  datatype Error = Error(reason: Reason, platform: bool, code: Code, http: int)

  /** A catalogue row: code and HTTP status (0: by the code). */
  datatype Entry = Entry(code: Code, http: int)

  function HttpOf(c: Code): int {
    match c
    case INVALID_ARGUMENT => 400
    case FAILED_PRECONDITION => 400
    case OUT_OF_RANGE => 400
    case UNAUTHENTICATED => 401
    case PERMISSION_DENIED => 403
    case NOT_FOUND => 404
    case ALREADY_EXISTS => 409
    case ABORTED => 409
    case RESOURCE_EXHAUSTED => 429
    case CANCELLED => 499
    case UNIMPLEMENTED => 501
    case UNAVAILABLE => 503
    case DEADLINE_EXCEEDED => 504
    case _ => 500
  }

  /** The platform's catalogue; the rows of reasons not told apart here are a parameter. */
  function Catalogue(others: map<string, Entry>, r: Reason): Option<Entry> {
    match r
    case DependencyUnavailable => Some(Entry(UNAVAILABLE, 0))
    case CircuitOpen => Some(Entry(UNAVAILABLE, 0))
    case DeadlineBudgetExhausted => Some(Entry(DEADLINE_EXCEEDED, 0))
    case ResultUnknown => Some(Entry(DEADLINE_EXCEEDED, 0))
    case OutboundLimit => Some(Entry(RESOURCE_EXHAUSTED, 503))
    case DeadlineExceeded => Some(Entry(DEADLINE_EXCEEDED, 0))
    case RequestCancelled => Some(Entry(CANCELLED, 0))
    case AuthorizationUnprovable => Some(Entry(UNAVAILABLE, 0))
    case Internal => Some(Entry(INTERNAL, 0))
    case Named(n) => if n in others then Some(others[n]) else None
  }

  function StatusOf(e: Entry): int { if e.http != 0 then e.http else HttpOf(e.code) }

  /** errs.new, for a reason of the catalogue. */
  function New(others: map<string, Entry>, r: Reason): Error
    requires Catalogue(others, r).Some?
  {
    var e := Catalogue(others, r).value;
    Error(r, true, e.code, StatusOf(e))
  }

  /** The code of an HTTP status without a catalogued reason. */
  function CodeOfStatus(status: int): Code {
    if status < 400 then OK
    else if status == 502 || status == 503 then UNAVAILABLE
    else if status == 504 then DEADLINE_EXCEEDED
    else if status == 499 then CANCELLED
    else if status >= 500 then INTERNAL
    else if status == 400 then INVALID_ARGUMENT
    else if status == 401 then UNAUTHENTICATED
    else if status == 403 then PERMISSION_DENIED
    else if status == 404 then NOT_FOUND
    else if status == 409 then ABORTED
    else if status == 429 then RESOURCE_EXHAUSTED
    else FAILED_PRECONDITION
  }

  // ----- one attempt -----

  /** What an attempt raised: a protocol error, or an exception of some kind. */
  datatype Raised = Protocol(e: Error) | Timeout | Cancellation | Exception

  datatype AttemptResult = AttemptResult(err: Option<Raised>, code: Code, remote: Option<Error>, connectFailed: bool)

  datatype Class = SUCCESS | UNREACHED | CONNECT_FAILED | DEADLINE | RELAYED | OTHER | CANCELLED_BY_CALLER

  predicate Relays(r: Reason) {
    r == DependencyUnavailable || r == CircuitOpen || r == DeadlineBudgetExhausted || r == ResultUnknown
  }

  /** classify; UNREACHED is the class of an unavailable dependency. */
  function Classify(r: AttemptResult, cancelled: bool): Class {
    if cancelled && r.err.Some? then CANCELLED_BY_CALLER
    else if r.connectFailed then CONNECT_FAILED
    else if r.err.None? then SUCCESS
    else if r.remote.Some? && r.remote.value.platform && Relays(r.remote.value.reason) then RELAYED
    else if r.code == UNAVAILABLE then UNREACHED
    else if r.code == DEADLINE_EXCEEDED then DEADLINE
    else OTHER
  }

  predicate Retryable(c: Class) { c == UNREACHED || c == CONNECT_FAILED }

  function ForBreaker(c: Class): Breaker.Outcome {
    if c == SUCCESS then Breaker.Success
    else if c == UNREACHED || c == CONNECT_FAILED || c == DEADLINE then Breaker.Failure
    else Breaker.Ignored
  }

  function ForBudget(c: Class): Budget.Outcome {
    if c == SUCCESS then Budget.Success else if Retryable(c) then Budget.Unavailable else Budget.Other
  }

  // ----- the same on the attempt's own fields -----

  predicate Succeeded(r: AttemptResult) { r.err.None? && !r.connectFailed }

  /** The dependency reported a failure further down. */
  predicate FurtherDown(r: AttemptResult) {
    r.remote.Some? && r.remote.value.platform
    && r.remote.value.reason in {DependencyUnavailable, CircuitOpen, DeadlineBudgetExhausted, ResultUnknown}
  }

  /** The dependency itself could not be reached. */
  predicate Down(r: AttemptResult) {
    r.connectFailed || (r.err.Some? && r.code == UNAVAILABLE && !FurtherDown(r))
  }

  /** The attempt's time ran out before an answer. */
  predicate Late(r: AttemptResult) {
    !r.connectFailed && r.err.Some? && r.code == DEADLINE_EXCEEDED && !FurtherDown(r)
  }

  /** What an attempt costs the retry budget. */
  function Cost(r: AttemptResult): Budget.Outcome {
    if Succeeded(r) then Budget.Success else if Down(r) then Budget.Unavailable else Budget.Other
  }

  /** What the breaker counts of an attempt: nothing, or whether it failed. */
  function Counts(r: AttemptResult): seq<bool> {
    if Succeeded(r) then [false] else if Down(r) || Late(r) then [true] else []
  }

  /** Only a dependency that cannot be reached is worth another attempt and takes tokens; the breaker also counts
      attempts whose time ran out, and neither counts a failure further down. */
  lemma CountedExactly(r: AttemptResult)
    ensures Classify(r, false) == SUCCESS <==> Succeeded(r)
    ensures Retryable(Classify(r, false)) <==> Down(r)
    ensures ForBudget(Classify(r, false)) == Cost(r)
    ensures Breaker.Outcomes(Breaker.End(0, 0.0, ForBreaker(Classify(r, false)))) == Counts(r)
  {}

  /** The caller's answer for a final attempt, on the attempt's fields: a dependency that cannot be reached is
      unavailable. An attempt whose time ran out has an unknown result unless the call may be repeated. What the
      dependency answered is passed on. */
  ghost predicate Answers(others: map<string, Entry>, idempotent: bool, r: AttemptResult, e: Error) {
    if Down(r) then e == New(others, DependencyUnavailable)
    else if Late(r) then e == New(others, if idempotent then DeadlineExceeded else ResultUnknown)
    else if r.remote.Some? then e == r.remote.value
    else if r.err.Some? && r.err.value.Protocol? then e == r.err.value.e
    else if r.err == Some(Cancellation) then e == New(others, RequestCancelled)
    else if r.err == Some(Timeout) then e == New(others, DeadlineExceeded)
    else e == New(others, Internal)
  }

  lemma AnswersExactly(others: map<string, Entry>, r: AttemptResult, idempotent: bool)
    requires ResultOk(others, r) && !Succeeded(r)
    ensures Upward(others, Classify(r, false), r, idempotent).Some?
    ensures Answers(others, idempotent, r, Upward(others, Classify(r, false), r, idempotent).value)
  {}

  function FromException(others: map<string, Entry>, x: Option<Raised>): Error {
    match x
    case Some(Protocol(e)) => e
    case Some(Cancellation) => New(others, RequestCancelled)
    case Some(Timeout) => New(others, DeadlineExceeded)
    case _ => New(others, Internal)
  }

  /** upward: what the caller answers when this was the final attempt. */
  function Upward(others: map<string, Entry>, c: Class, r: AttemptResult, idempotent: bool): Option<Error> {
    match c
    case SUCCESS => None
    case UNREACHED => Some(New(others, DependencyUnavailable))
    case CONNECT_FAILED => Some(New(others, DependencyUnavailable))
    case DEADLINE => Some(New(others, if idempotent then DeadlineExceeded else ResultUnknown))
    case CANCELLED_BY_CALLER => Some(New(others, RequestCancelled))
    case _ => Some(if r.remote.Some? then r.remote.value else FromException(others, r.err))
  }

  // ----- the wire -----

  datatype Wire = Grpc | Http

  predicate IsInternal(e: Error) { e.code == INTERNAL || e.code == UNKNOWN || e.code == DATA_LOSS }

  /** An error rendered by the server that raised it and read back by its caller. */
  function Reading(others: map<string, Entry>, w: Wire, e: Error): Error {
    var reason := if IsInternal(e) then Internal else e.reason;
    var platform := IsInternal(e) || e.platform;
    var entry := if platform then Catalogue(others, reason) else None;
    match w
    case Grpc =>
      var code := if reason == Internal then INTERNAL else e.code;
      Error(reason, platform, code, if entry.Some? then StatusOf(entry.value) else HttpOf(code))
    case Http =>
      var status := if IsInternal(e) then 500 else e.http;
      Error(reason, platform, if entry.Some? then entry.value.code else CodeOfStatus(status), status)
  }

  function Received(others: map<string, Entry>, w: Wire, e: Error): AttemptResult {
    var r := Reading(others, w, e);
    AttemptResult(Some(Protocol(r)), r.code, Some(r), false)
  }

  // ----- one layer retries -----

  /** A catalogued platform error carries its catalogue code; any other error's HTTP status says unavailable only when
      its code does. Errors built by the error module or read from the wire are so. */
  predicate Coherent(others: map<string, Entry>, e: Error) {
    && (e.platform && Catalogue(others, e.reason).Some? ==> e.code == Catalogue(others, e.reason).value.code)
    && (!(e.platform && Catalogue(others, e.reason).Some?) && CodeOfStatus(e.http) == UNAVAILABLE ==>
          e.code == UNAVAILABLE)
  }

  /** What a client reports of an attempt. */
  predicate ResultOk(others: map<string, Entry>, r: AttemptResult) {
    && (r.remote.Some? ==> r.err == Some(Protocol(r.remote.value)) && r.code == r.remote.value.code)
    && (r.err.Some? && r.err.value.Protocol? ==> r.err.value.e.code == r.code && Coherent(others, r.err.value.e))
    && (r.connectFailed ==> r.err.Some?)
  }

  /** The next caller up does not retry it, over either wire, and reads it coherently. */
  predicate Settled(others: map<string, Entry>, e: Error) { SettledOn(others, Grpc, e) && SettledOn(others, Http, e) }

  predicate SettledOn(others: map<string, Entry>, w: Wire, e: Error) {
    && !Retryable(Classify(Received(others, w, e), false)) && Classify(Received(others, w, e), false) != SUCCESS
    && ResultOk(others, Received(others, w, e))
  }

  lemma OtherOverGrpc(others: map<string, Entry>, e: Error)
    requires Coherent(others, e) && e.code != UNAVAILABLE
    ensures SettledOn(others, Grpc, e)
  {
    if IsInternal(e) { assert Reading(others, Grpc, e).reason == Internal; }
  }

  lemma OtherOverHttp(others: map<string, Entry>, e: Error)
    requires Coherent(others, e) && e.code != UNAVAILABLE
    ensures SettledOn(others, Http, e)
  {
    if IsInternal(e) { assert Reading(others, Http, e).reason == Internal; }
  }

  lemma OtherSettled(others: map<string, Entry>, e: Error)
    requires Coherent(others, e) && e.code != UNAVAILABLE
    ensures Settled(others, e)
  {
    OtherOverGrpc(others, e);
    OtherOverHttp(others, e);
  }

  lemma RelayedSettled(others: map<string, Entry>, e: Error)
    requires Coherent(others, e) && e.platform && Relays(e.reason)
    ensures Settled(others, e)
  {}

  /** The errors a dependency raises of its own accord, without or after an attempt. */
  lemma LocalSettled(others: map<string, Entry>, r: Reason)
    requires r == Internal || r == OutboundLimit || r == DeadlineExceeded || r == RequestCancelled || Relays(r)
    ensures Settled(others, New(others, r))
  {
    if Relays(r) { RelayedSettled(others, New(others, r)); } else { OtherSettled(others, New(others, r)); }
  }

  /** Only one layer retries: whatever an attempt came to, the error answered upward for it is not one that the next
      caller retries, over either wire. */
  lemma OneLayerRetries(others: map<string, Entry>, r: AttemptResult, cancelled: bool, idempotent: bool)
    requires ResultOk(others, r) && Classify(r, cancelled) != SUCCESS
    ensures Upward(others, Classify(r, cancelled), r, idempotent).Some?
    ensures Settled(others, Upward(others, Classify(r, cancelled), r, idempotent).value)
  {
    var c := Classify(r, cancelled);
    match c
    case RELAYED => RelayedSettled(others, r.remote.value);
    case OTHER =>
      if r.err.value.Protocol? {
        OtherSettled(others, r.err.value.e);
      } else {
        LocalSettled(others, match r.err.value
          case Cancellation => RequestCancelled
          case Timeout => DeadlineExceeded
          case _ => Internal);
      }
    case DEADLINE => LocalSettled(others, if idempotent then DeadlineExceeded else ResultUnknown);
    case CANCELLED_BY_CALLER => LocalSettled(others, RequestCancelled);
    case _ => LocalSettled(others, DependencyUnavailable);
  }

  // ----- exactly which errors are retried further up -----

  /** HTTP.do after the dependency's call: with forward_user a refused user credential becomes an authorization that
      cannot be confirmed. */
  function UserClient(others: map<string, Entry>, forward: bool, e: Error): Error {
    if forward && e.code == UNAUTHENTICATED then New(others, AuthorizationUnprovable) else e
  }

  /** Of the errors that leave a dependency's call, the user client makes exactly the refused credentials of forwarded
      calls retryable for the next caller. */
  lemma ForwardedRefusalIsRetried(others: map<string, Entry>, forward: bool, e: Error)
    requires Settled(others, e)
    ensures Settled(others, UserClient(others, forward, e)) <==> !(forward && e.code == UNAUTHENTICATED)
    ensures forward && e.code == UNAUTHENTICATED ==>
      forall w :: Retryable(Classify(Received(others, w, UserClient(others, forward, e)), false))
  {}

  /** What an error's rendering over HTTP says, whatever its code. */
  function HttpSays(others: map<string, Entry>, e: Error): Code {
    if e.platform && Catalogue(others, e.reason).Some? then Catalogue(others, e.reason).value.code
    else CodeOfStatus(e.http)
  }

  /** An error of the dependency's own kind is passed upward as it is. The next caller retries it if and only if it is
      read over HTTP and its catalogue row, or else its status, says unavailable although its code does not. */
  lemma PassedOnExactly(others: map<string, Entry>, w: Wire, r: AttemptResult, idempotent: bool)
    requires r.remote.Some? && r.err == Some(Protocol(r.remote.value)) && r.code == r.remote.value.code
    requires Classify(r, false) == OTHER
    ensures Upward(others, OTHER, r, idempotent) == Some(r.remote.value)
    ensures Retryable(Classify(Received(others, w, r.remote.value), false)) <==>
      w == Http && !IsInternal(r.remote.value) && HttpSays(others, r.remote.value) == UNAVAILABLE
  {
    var e := r.remote.value;
    if w == Http && !IsInternal(e) { assert Reading(others, w, e).code == HttpSays(others, e); }
  }

  /** What is read from the wire is coherent, except a platform reason read over gRPC under another code than its own,
      which no server of the protocol sends. */
  lemma ReadingCoherent(others: map<string, Entry>, w: Wire, e: Error)
    ensures Coherent(others, Reading(others, w, e)) <==>
      !(w == Grpc && !IsInternal(e) && e.platform && Catalogue(others, e.reason).Some?
        && (if e.reason == Internal then INTERNAL else e.code) != Catalogue(others, e.reason).value.code)
  {
    if IsInternal(e) { assert Reading(others, w, e).reason == Internal; }
    assert CodeOfStatus(HttpOf(e.code)) == UNAVAILABLE ==> e.code == UNAVAILABLE;
  }

  /** Such an error: read over gRPC as its code says, and rendered over HTTP, it becomes what the catalogue says. */
  lemma IncoherentIsRetried(others: map<string, Entry>)
    ensures var e := Error(AuthorizationUnprovable, true, ABORTED, 409);
      !Coherent(others, e) && !Retryable(Classify(Received(others, Grpc, e), false))
      && Retryable(Classify(Received(others, Http, Reading(others, Grpc, e)), false))
  {}
}
