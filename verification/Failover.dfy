/** The inference router's failover (providerChain, Complete, completeOne and trackEffect in
    daemon/inference/inference.go) over the operations engine. What providers, clocks, identifiers and the database
    do in each attempt is handed in. */
module Failover {
  import opened Wrappers
  import O = Operations
  import Policy

  type Id = O.Id

  datatype Answer = Answer(text: string, inputTokens: int, outputTokens: int)

  /** The engine calls around one provider call, in order. */
  datatype Step = Propose | DispatchPending | Dispatch | Observe | Resolve

  /** One attempt: why its credential does not resolve, if it does not; the JSON text that is hashed; what the
      provider answers; fresh identifiers; clock readings; and the first statement the database refuses, if it
      refuses one, by the engine call it belongs to. */
  datatype Attempt = Attempt(
    credential: Option<string>,
    payload: string,
    call: Result<Answer, string>,
    operationId: string,
    effect: Id,
    decision: Id,
    approval: Id,
    proposedAt: Policy.Time,
    dispatchAt: Policy.Time,
    stamp: Policy.Time,
    down: Option<(Step, O.Refused)>)

  /** What the database refuses during this engine call. */
  function DownAt(a: Attempt, step: Step): O.Refused {
    if a.down.Some? && a.down.value.0 == step then a.down.value.1 else O.Nothing
  }

  /** Why an attempt failed. After the provider was called its error, if any, is joined with the engine's. */
  datatype Error =
    | NoCredential(cause: string)
    | NotCalled(step: Step, engine: O.Error)
    | CallFailed(cause: string)
    | NotRecorded(call: Option<string>, step: Step, engine: O.Error)

  /** The tables tracking writes to. */
  type Books = O.Books

  type Tracked = (Books, Result<Answer, Error>)

  function ProviderOrDefault(p: string): string {
    if p == "" then "anthropic" else p
  }

  function ProviderChain(providers: seq<string>, provider: string): (chain: seq<string>)
    ensures |chain| >= 1
  {
    if |providers| > 0 then providers else [ProviderOrDefault(provider)]
  }

  // ---- the engine calls --------------------------------------------------------------------------------

  function RequestOf(a: Attempt): O.Request {
    O.Request(a.operationId, "amh.core/inference", "amh.core/inference.complete", Policy.Json(a.payload),
              Policy.Verified, O.Never)
  }

  function DoPropose(b: Books, a: Attempt): (Books, Result<O.Effect, O.Error>) {
    O.ProposeCall(b, RequestOf(a), a.proposedAt, a.effect, a.decision, a.approval, DownAt(a, Propose))
  }

  function DoDispatchPending(b: Books, a: Attempt): (Books, Result<O.Effect, O.Error>) {
    O.DispatchPendingCall(b, a.effect, Policy.Json(a.payload), a.dispatchAt, a.stamp, DownAt(a, DispatchPending))
  }

  function DoMark(b: Books, a: Attempt, step: Step, tr: O.Transition): (Books, Result<O.Effect, O.Error>) {
    O.MarkCall(b, a.effect, tr, DownAt(a, step))
  }

  /** How the provider's answer is recorded. */
  function Verdict(call: Result<Answer, string>): O.Transition {
    match call
    case Success(_) => O.Resolve(O.Confirmed, None)
    case Failure(e) => O.Resolve(O.Failed, Some(O.EffectError("PROVIDER_CALL_FAILED", true, e)))
  }

  function ErrorOf(call: Result<Answer, string>): Option<string> {
    match call
    case Success(_) => None
    case Failure(e) => Some(e)
  }

  function Plain(call: Result<Answer, string>): Result<Answer, Error> {
    match call
    case Success(x) => Success(x)
    case Failure(e) => Failure(CallFailed(e))
  }

  // ---- one attempt -------------------------------------------------------------------------------------

  /** Before the call: propose, dispatch_pending, dispatched; the first that fails ends the attempt. */
  function Before(b: Books, provider: string, a: Attempt): (Books, Option<Error>) {
    var (b1, proposed) := DoPropose(b, a);
    if proposed.Failure? then (b1, Some(NotCalled(Propose, proposed.error)))
    else
      var (b2, pending) := DoDispatchPending(b1, a);
      if pending.Failure? then (b2, Some(NotCalled(DispatchPending, pending.error)))
      else
        var (b3, dispatched) := DoMark(b2, a, Dispatch, O.MarkDispatched(provider));
        (b3, if dispatched.Failure? then Some(NotCalled(Dispatch, dispatched.error)) else None)
  }

  /** After the call: observed and resolved; if either cannot be recorded the answer is not returned. */
  function Finish(b: Books, a: Attempt): Tracked {
    var (b1, observed) := DoMark(b, a, Observe, O.MarkObserved(""));
    if observed.Failure? then (b1, Failure(NotRecorded(ErrorOf(a.call), Observe, observed.error)))
    else
      var (b2, resolved) := DoMark(b1, a, Resolve, Verdict(a.call));
      (b2, if resolved.Failure? then Failure(NotRecorded(ErrorOf(a.call), Resolve, resolved.error)) else Plain(a.call))
  }

  /** trackEffect; without an engine the provider is simply called. */
  function TrackEffect(b: Books, tracking: bool, provider: string, a: Attempt): Tracked {
    if !tracking then (b, Plain(a.call))
    else
      var (b1, e) := Before(b, provider, a);
      if e.Some? then (b1, Failure(e.value)) else Finish(b1, a)
  }

  function CompleteOne(b: Books, tracking: bool, provider: string, a: Attempt): Tracked {
    match a.credential
    case Some(cause) => (b, Failure(NoCredential(cause)))
    case None => TrackEffect(b, tracking, provider, a)
  }

  // ---- the chain ---------------------------------------------------------------------------------------

  /** The answer, or one error per provider. */
  type Completed = (Books, Result<Answer, seq<(string, Error)>>)

  function Complete(b: Books, tracking: bool, chain: seq<string>, attempts: seq<Attempt>): Completed
    requires |attempts| == |chain|
    decreases |chain|
  {
    if chain == [] then (b, Failure([]))
    else
      match CompleteOne(b, tracking, chain[0], attempts[0])
      case (b1, Success(x)) => (b1, Success(x))
      case (b1, Failure(e)) =>
        match Complete(b1, tracking, chain[1..], attempts[1..])
        case (b2, Success(x)) => (b2, Success(x))
        case (b2, Failure(es)) => (b2, Failure([(chain[0], e)] + es))
  }

  /** The same, after these errors. */
  function After(errs: seq<(string, Error)>, c: Completed): Completed {
    match c
    case (b, Success(x)) => (b, Success(x))
    case (b, Failure(es)) => (b, Failure(errs + es))
  }

  /** What the caller sees when no provider answered: the sentinel, joined with the providers' errors in order. */
  datatype ChainError = AllProvidersFailed(errors: seq<(string, Error)>)

  function Reported(r: Result<Answer, seq<(string, Error)>>): Result<Answer, ChainError> {
    match r
    case Success(x) => Success(x)
    case Failure(es) => Failure(AllProvidersFailed(es))
  }
}
