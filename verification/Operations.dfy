/** The external-effect lifecycle (daemon/operations/operations.go): the rows, the guard every transition
    checks on the row it read, and the UPDATE that only lands on the row version it read. */
module Operations {
  import opened Wrappers
  import Policy

  type Id = Policy.Id

  datatype State =
    | Proposed | Admitted | Rejected | NeedsApproval
    | DispatchPending | Dispatched
    | Observed | OutcomeUnknown
    | Confirmed | Reconciled | Compensated | Failed

  datatype RetryClass = Never | ReconcileBeforeRetry | Idempotent | Unrecognised

  datatype EffectError = EffectError(code: string, retryable: bool, message: string)

  /** One row of effect_record. */
  datatype Effect = Effect(
    operationId: string,
    owner: string,
    effectType: string,
    decision: Id,
    state: State,
    forwardDigest: Policy.Digest,
    retryClass: RetryClass,
    externalCommand: string,
    observationRef: string,
    error: Option<EffectError>,
    rowVersion: nat)

  datatype Request = Request(
    operationId: string,
    owner: string,
    effectType: string,
    payload: Policy.Payload,
    reversibility: Policy.Reversibility,
    retryClass: RetryClass)

  datatype Error =
    | NotFound
    | InvalidTransition
    | InvalidRequest
    | NotTerminal
    | UnencodablePayload
    | PolicyRefused(cause: Policy.Error)
    | Unavailable

  /** The transitions a caller can ask for. */
  datatype Transition =
    | MarkDispatchPending(payload: Policy.Payload)
    | MarkDispatched(command: string)
    | MarkObserved(ref: string)
    | MarkOutcomeUnknown
    | Resolve(terminal: State, error: Option<EffectError>)

  predicate IsTerminal(s: State) {
    s.Confirmed? || s.Reconciled? || s.Compensated? || s.Failed?
  }

  /** How far along the lifecycle a state is. */
  function Rank(s: State): nat {
    match s
    case Proposed | Admitted | Rejected | NeedsApproval => 0
    case DispatchPending => 1
    case Dispatched => 2
    case Observed | OutcomeUnknown => 3
    case Confirmed | Reconciled | Compensated | Failed => 4
  }

  /** What a transition checks before it writes anything: its argument, then the state it read. */
  function Guard(tr: Transition, state: State): Option<Error> {
    match tr
    case MarkDispatchPending(_) => if state.Admitted? then None else Some(InvalidTransition)
    case MarkDispatched(_) => if state.DispatchPending? then None else Some(InvalidTransition)
    case MarkObserved(_) => if state.Dispatched? then None else Some(InvalidTransition)
    case MarkOutcomeUnknown => if state.Dispatched? then None else Some(InvalidTransition)
    case Resolve(terminal, _) =>
      if !IsTerminal(terminal) then Some(NotTerminal)
      else if state.Observed? || state.OutcomeUnknown? then None else Some(InvalidTransition)
  }

  /** The row a transition's UPDATE leaves behind. */
  function Moved(tr: Transition, e: Effect): Effect {
    var next := e.(rowVersion := e.rowVersion + 1);
    match tr
    case MarkDispatchPending(_) => next.(state := DispatchPending)
    case MarkDispatched(command) => next.(state := Dispatched, externalCommand := command)
    case MarkObserved(ref) => next.(state := Observed, observationRef := ref)
    case MarkOutcomeUnknown => next.(state := OutcomeUnknown)
    case Resolve(terminal, error) => next.(state := terminal, error := error)
  }

  /** updateState: UPDATE ... WHERE effect_id = id AND row_version = expected. */
  function UpdateState(effects: map<Id, Effect>, id: Id, expected: nat, tr: Transition)
    : (map<Id, Effect>, Result<(), Error>) {
    if id in effects && effects[id].rowVersion == expected
    then (effects[id := Moved(tr, effects[id])], Success(()))
    else (effects, Failure(InvalidTransition))
  }

  /** Resolve refuses a non-terminal argument before it looks the effect up; every other check needs the
      row. */
  function ReadAndGuard(effects: map<Id, Effect>, id: Id, tr: Transition): Result<Effect, Error> {
    if tr.Resolve? && !IsTerminal(tr.terminal) then Failure(NotTerminal)
    else if id !in effects then Failure(NotFound)
    else
      match Guard(tr, effects[id].state)
      case Some(e) => Failure(e)
      case None => Success(effects[id])
  }

  /** Propose's checks on the request itself. */
  predicate WellFormed(req: Request) {
    req.operationId != "" && req.owner != "" && req.effectType != "" && !req.retryClass.Unrecognised?
  }

  function StateFor(verdict: Policy.Verdict): State {
    match verdict
    case Admit | AdmitWithConstraints => Admitted
    case NeedsApproval => NeedsApproval
    case Deferred | Refused => Rejected
  }

  /** The row Propose inserts for a decided request. */
  function Recorded(req: Request, id: Id, decision: Policy.Decision): Effect {
    Effect(req.operationId, req.owner, req.effectType, id, StateFor(decision.verdict), decision.digest,
           req.retryClass, "", "", None, 0)
  }

  // ---- whole calls -------------------------------------------------------------------------------------

  /** The tables of both engines. */
  datatype Books = Books(policy: Policy.Tables, effects: map<Id, Effect>)

  /** Which of a call's statements the database refuses, if any: the first read of the effect, the policy engine's
      transaction, the write of the effect, or the read of the written row that every call ends with. A statement
      that a call does not have cannot be refused. */
  datatype Refused = Nothing | Reading | Deciding | Writing | Reloading

  /** The answer of a call that has written its row. */
  function Reloaded(e: Effect, refused: Refused): Result<Effect, Error> {
    if refused.Reloading? then Failure(Unavailable) else Success(e)
  }

  /** Propose: decide, then insert the row that refers to the decision. */
  function ProposeCall(b: Books, req: Request, now: Policy.Time, id: Id, decision: Id, approval: Id, refused: Refused)
    : (Books, Result<Effect, Error>) {
    if !WellFormed(req) then (b, Failure(InvalidRequest))
    else
      match Policy.Decide(b.policy, req.operationId, req.payload, req.reversibility, now, decision, approval)
      case (_, Failure(e)) => (b, Failure(PolicyRefused(e)))
      case (t, Success(_)) =>
        if refused.Deciding? then (b, Failure(Unavailable))
        else if refused.Writing? then (b.(policy := t), Failure(Unavailable))
        else
          var row := Recorded(req, decision, t.decisions[decision]);
          (Books(t, b.effects[id := row]), Reloaded(row, refused))
  }

  /** MarkDispatchPending: read and guard, consume the decision for the digest of what is about to ship, move. */
  function DispatchPendingCall(b: Books, id: Id, payload: Policy.Payload, now: Policy.Time, stamp: Policy.Time,
                               refused: Refused): (Books, Result<Effect, Error>) {
    var tr := MarkDispatchPending(payload);
    if refused.Reading? then (b, Failure(Unavailable))
    else
      match ReadAndGuard(b.effects, id, tr)
      case Failure(e) => (b, Failure(e))
      case Success(read) =>
        if Policy.DigestOf(payload).None? then (b, Failure(UnencodablePayload))
        else if refused.Deciding? then (b, Failure(Unavailable))
        else
          match Policy.Consume(b.policy, read.decision, Policy.DigestOf(payload).value, now, stamp)
          case (_, Failure(e)) => (b, Failure(PolicyRefused(e)))
          case (t, Success(_)) =>
            if refused.Writing? then (b.(policy := t), Failure(Unavailable))
            else (Books(t, b.effects[id := Moved(tr, read)]), Reloaded(Moved(tr, read), refused))
  }

  /** The four other transitions: read, guard, move. */
  function MarkCall(b: Books, id: Id, tr: Transition, refused: Refused): (Books, Result<Effect, Error>) {
    if tr.Resolve? && !IsTerminal(tr.terminal) then (b, Failure(NotTerminal))
    else if refused.Reading? then (b, Failure(Unavailable))
    else
      match ReadAndGuard(b.effects, id, tr)
      case Failure(e) => (b, Failure(e))
      case Success(read) =>
        if refused.Writing? then (b, Failure(Unavailable))
        else (b.(effects := b.effects[id := Moved(tr, read)]), Reloaded(Moved(tr, read), refused))
  }

  /** An edge of the lifecycle graph: the only way one row may turn into another. */
  ghost predicate Edge(from: Effect, to: Effect) {
    exists tr :: Guard(tr, from.state) == None && to == Moved(tr, from)
  }

  /** What the effects look like once the interrupted ones among these ids have been marked. */
  function Recovered(effects: map<Id, Effect>, ids: set<Id>): map<Id, Effect> {
    map id | id in effects ::
      if id in ids && effects[id].state.Dispatched? then Moved(MarkOutcomeUnknown, effects[id]) else effects[id]
  }

  /** ... and once every one has. */
  function AllReconciled(effects: map<Id, Effect>): map<Id, Effect> {
    Recovered(effects, effects.Keys)
  }

  /** Each edge goes up one rank and one row version, and never rewrites what the effect is bound to. */
  lemma EdgeClimbs(from: Effect, to: Effect)
    requires Edge(from, to)
    ensures Rank(to.state) == Rank(from.state) + 1
    ensures to.rowVersion == from.rowVersion + 1
    ensures to.decision == from.decision && to.forwardDigest == from.forwardDigest
    ensures to.operationId == from.operationId && to.owner == from.owner && to.retryClass == from.retryClass
  {
  }

  /** A second recovery finds nothing to do, and one that completes finishes what one that stopped half-way began. */
  lemma ReconcilingTwiceChangesNothing(effects: map<Id, Effect>, ids: set<Id>)
    ensures AllReconciled(AllReconciled(effects)) == AllReconciled(effects)
    ensures AllReconciled(Recovered(effects, ids)) == AllReconciled(effects)
    ensures forall id :: id in effects ==> id in AllReconciled(effects) && !AllReconciled(effects)[id].state.Dispatched?
    ensures forall id :: id in effects && !effects[id].state.Dispatched? ==> AllReconciled(effects)[id] == effects[id]
  {
  }
}
