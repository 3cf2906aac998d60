/** What each call to the operations engine answers and writes, state by state, and with that the lifecycle of an
    effect: which moves there are, and no others. */
module OperationsCalls {
  import opened Wrappers
  import opened Operations
  import Policy

  /** The row in another state, one version up. */
  function In(e: Effect, state: State): Effect {
    e.(state := state, rowVersion := e.rowVersion + 1)
  }

  /** The tables with this row changed. */
  function With(b: Books, id: Id, e: Effect): Books {
    b.(effects := b.effects[id := e])
  }

  // ---- the transitions ---------------------------------------------------------------------------------

  /** A stored effect becomes dispatched exactly from dispatch_pending, and then carries the external command. */
  lemma DispatchesExactlyThePending(b: Books, id: Id, command: string)
    requires id in b.effects
    ensures MarkCall(b, id, MarkDispatched(command), Nothing) ==
      if b.effects[id].state == DispatchPending
      then var e := In(b.effects[id], Dispatched).(externalCommand := command); (With(b, id, e), Success(e))
      else (b, Failure(InvalidTransition))
  {
  }

  /** It becomes observed exactly from dispatched, and then carries the reference to the evidence. */
  lemma ObservesExactlyTheDispatched(b: Books, id: Id, ref: string)
    requires id in b.effects
    ensures MarkCall(b, id, MarkObserved(ref), Nothing) ==
      if b.effects[id].state == Dispatched
      then var e := In(b.effects[id], Observed).(observationRef := ref); (With(b, id, e), Success(e))
      else (b, Failure(InvalidTransition))
  {
  }

  /** Its outcome becomes unknown exactly from dispatched. */
  lemma LosesExactlyTheDispatched(b: Books, id: Id)
    requires id in b.effects
    ensures MarkCall(b, id, MarkOutcomeUnknown, Nothing) ==
      if b.effects[id].state == Dispatched
      then var e := In(b.effects[id], OutcomeUnknown); (With(b, id, e), Success(e))
      else (b, Failure(InvalidTransition))
  {
  }

  /** It is settled exactly from observed or outcome_unknown, as confirmed, reconciled, compensated or failed, and then
      has that state and that error; any other verdict is refused before the effect is looked at. */
  lemma SettlesExactlyTheObservedOrUnknown(b: Books, id: Id, terminal: State, error: Option<EffectError>)
    requires id in b.effects
    ensures MarkCall(b, id, Resolve(terminal, error), Nothing) ==
      if terminal !in {Confirmed, Reconciled, Compensated, Failed} then (b, Failure(NotTerminal))
      else if b.effects[id].state in {Observed, OutcomeUnknown}
      then var e := In(b.effects[id], terminal).(error := error); (With(b, id, e), Success(e))
      else (b, Failure(InvalidTransition))
  {
  }

  /** None of these finds an effect that is not there. */
  lemma MissingEffectsAreNotFound(b: Books, id: Id, tr: Transition)
    requires id !in b.effects && !tr.MarkDispatchPending?
    requires tr.Resolve? ==> tr.terminal in {Confirmed, Reconciled, Compensated, Failed}
    ensures MarkCall(b, id, tr, Nothing) == (b, Failure(NotFound))
  {
  }

  /** It becomes dispatch_pending exactly from admitted, if what is about to ship can be hashed, and its decision is an
      unconsumed admit of the very same payload that has not expired. The decision is then consumed, and nothing else
      changes. */
  lemma ShipsExactlyTheAdmitted(b: Books, id: Id, payload: Policy.Payload, now: Policy.Time, stamp: Policy.Time)
    requires id in b.effects && b.effects[id].decision in b.policy.decisions
    ensures var (after, r) := DispatchPendingCall(b, id, payload, now, stamp, Nothing);
      var (row, d) := (b.effects[id], b.policy.decisions[b.effects[id].decision]);
      && (r.Success? <==>
            && row.state == Admitted && payload != Policy.Unencodable
            && d.consumedAt == None && d.verdict in {Policy.Admit, Policy.AdmitWithConstraints}
            && d.digest == Policy.Sha256(payload.text) && now < d.expiresAt)
      && (r.Success? ==>
            && r.value == In(row, DispatchPending) && after.effects == b.effects[id := In(row, DispatchPending)]
            && after.policy == b.policy.(decisions := b.policy.decisions[row.decision := d.(consumedAt := Some(stamp))]))
      && (r.Failure? ==> after == b)
  {
  }

  /** Its errors, the first thing wrong first. */
  lemma ShippingNamesTheFirstFault(b: Books, id: Id, payload: Policy.Payload, now: Policy.Time, stamp: Policy.Time)
    ensures var r := DispatchPendingCall(b, id, payload, now, stamp, Nothing).1;
      && (r == Failure(NotFound) <==> id !in b.effects)
      && (id in b.effects ==> (r == Failure(InvalidTransition) <==> b.effects[id].state != Admitted))
      && (id in b.effects && b.effects[id].state == Admitted ==>
            && (r == Failure(UnencodablePayload) <==> payload == Policy.Unencodable)
            && (r.Failure? && payload != Policy.Unencodable ==>
                  Policy.Consume(b.policy, b.effects[id].decision, Policy.Sha256(payload.text), now, stamp).1 ==
                  Failure(r.error.cause)))
  {
  }

  /** Recovery marks exactly the dispatched ones it reaches as of unknown outcome, and keeps every other row. */
  lemma RecoveryMarksTheDispatched(effects: map<Id, Effect>, ids: set<Id>, id: Id)
    requires id in effects
    ensures Recovered(effects, ids).Keys == effects.Keys
    ensures Recovered(effects, ids)[id] ==
      if effects[id].state == Dispatched && id in ids then In(effects[id], OutcomeUnknown) else effects[id]
    ensures AllReconciled(effects) == Recovered(effects, effects.Keys)
  {
  }

  // ---- proposals ---------------------------------------------------------------------------------------

  /** A proposal with an operation, an owner, an effect type, a known retry class and a payload that can be hashed is
      recorded: admitted if it is declared verified, waiting for approval otherwise, bound to the decision just made and to
      the digest of the payload, at version zero. Any other one leaves no trace. */
  lemma ProposalsAreRecorded(b: Books, req: Request, now: Policy.Time, id: Id, decision: Id, approval: Id)
    ensures var (after, r) := ProposeCall(b, req, now, id, decision, approval, Nothing);
      && (r.Success? <==>
            && req.operationId != "" && req.owner != "" && req.effectType != ""
            && req.retryClass in {Never, ReconcileBeforeRetry, Idempotent} && req.payload != Policy.Unencodable)
      && (r.Failure? ==> after == b)
      && (r.Success? ==>
            && r.value == Effect(req.operationId, req.owner, req.effectType, decision,
                                 if req.reversibility == Policy.Verified then Admitted else NeedsApproval,
                                 Policy.Sha256(req.payload.text), req.retryClass, "", "", None, 0)
            && after.effects == b.effects[id := r.value]
            && after.policy == Policy.Decide(b.policy, req.operationId, req.payload, req.reversibility, now, decision,
                                             approval).0)
  {
  }

  /** A request that is not well formed is told from one that cannot be hashed. */
  lemma IncompleteProposalsAreInvalid(b: Books, req: Request, now: Policy.Time, id: Id, decision: Id, approval: Id)
    ensures ProposeCall(b, req, now, id, decision, approval, Nothing).1 == Failure(InvalidRequest) <==>
      req.operationId == "" || req.owner == "" || req.effectType == "" || req.retryClass == Unrecognised
  {
  }

  // ---- the lifecycle -----------------------------------------------------------------------------------

  /** From where to where an effect can move. */
  predicate CanFollow(from: State, to: State) {
    match from
    case Admitted => to == DispatchPending
    case DispatchPending => to == Dispatched
    case Dispatched => to == Observed || to == OutcomeUnknown
    case Observed => to in {Confirmed, Reconciled, Compensated, Failed}
    case OutcomeUnknown => to in {Confirmed, Reconciled, Compensated, Failed}
    case _ => false
  }

  function Moving(to: State): Transition {
    match to
    case DispatchPending => MarkDispatchPending(Policy.Unencodable)
    case Dispatched => MarkDispatched("")
    case Observed => MarkObserved("")
    case OutcomeUnknown => MarkOutcomeUnknown
    case _ => Resolve(to, None)
  }

  /** The moves are these twelve and no others: for each there is an edge of the lifecycle graph, and every edge is one. */
  lemma TheMovesAreThese(from: Effect, to: State)
    ensures (exists e :: Edge(from, e) && e.state == to) <==> CanFollow(from.state, to)
  {
    if CanFollow(from.state, to) {
      var tr := Moving(to);
      assert Guard(tr, from.state) == None;
      assert Edge(from, Moved(tr, from)) && Moved(tr, from).state == to;
    }
  }
}
