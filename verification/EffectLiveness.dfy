/** What can still become of an effect: from which reachable states it can be settled at all, and with which verdicts. */
module EffectLiveness {
  import opened Wrappers
  import opened Operations
  import opened OperationsCalls
  import opened EffectRuns
  import opened EffectTheorems
  import Policy
  import L = PolicyLedger

  // ---- runs --------------------------------------------------------------------------------------------

  lemma {:induction false} RunOfAppend(s: System, a: seq<Event>, b: seq<Event>)
    ensures Run(s, a + b) == Run(Run(s, a), b)
    decreases |a|
  {
    if a == [] {
      assert a + b == b;
    } else {
      assert (a + b)[1..] == a[1..] + b;
      RunOfAppend(Next(s, a[0]), a[1..], b);
    }
  }

  lemma RunOfOne(s: System, ev: Event)
    ensures Run(s, [ev]) == Next(s, ev)
  {
    assert [ev][1..] == [];
    assert Run(s, [ev]) == Run(Next(s, ev), []);
  }

  lemma RunOfTwo(s: System, a: Event, b: Event)
    ensures Run(s, [a, b]) == Next(Next(s, a), b)
  {
    assert [a, b] == [a] + [b];
    RunOfAppend(s, [a], [b]);
    RunOfOne(s, a);
    RunOfOne(Next(s, a), b);
  }

  lemma {:induction false} SomeNumberIsMissing(used: set<Id>) returns (c: Id)
    ensures forall x :: x in used ==> x < c
    decreases used
  {
    if used == {} {
      c := 0;
    } else {
      var x :| x in used;
      var d := SomeNumberIsMissing(used - {x});
      assert forall y :: y in used ==> y == x || y in used - {x};
      c := if x < d then d else x + 1;
    }
  }

  // ---- one call by a caller of its own -----------------------------------------------------------------

  /** Read, guard, update: a caller that nobody gets in the way of makes its move. */
  lemma OneCallMoves(s: System, c: Id, e: Id, tr: Transition)
    requires c !in s.callers && e in s.effects && Guard(tr, s.effects[e].state) == None && !tr.MarkDispatchPending?
    ensures Run(s, [Read(c, e, tr), Update(c)]) == s.(effects := s.effects[e := Moved(tr, s.effects[e])])
  {
    var read := Next(s, Read(c, e, tr));
    assert read == s.(callers := s.callers[c := Guarded(Once, ToShip, tr, e, s.effects[e])]);
    assert read.callers - {c} == s.callers;
    RunOfTwo(s, Read(c, e, tr), Update(c));
  }

  /** This effect can get to this state. */
  ghost predicate CanReach(s: System, e: Id, to: State) {
    exists events :: e in Run(s, events).effects && Run(s, events).effects[e].state == to
  }

  lemma ReachedBy(s: System, e: Id, to: State, events: seq<Event>)
    requires e in Run(s, events).effects && Run(s, events).effects[e].state == to
    ensures CanReach(s, e, to)
  {
  }

  lemma ReachOnward(s: System, events: seq<Event>, e: Id, to: State)
    requires CanReach(Run(s, events), e, to)
    ensures CanReach(s, e, to)
  {
    var more :| e in Run(Run(s, events), more).effects && Run(Run(s, events), more).effects[e].state == to;
    RunOfAppend(s, events, more);
    ReachedBy(s, e, to, events + more);
  }

  /** One call takes it to a state from which it gets there. */
  lemma OneMoveCloser(s: System, c: Id, e: Id, tr: Transition, to: State)
    requires c !in s.callers && e in s.effects && Guard(tr, s.effects[e].state) == None && !tr.MarkDispatchPending?
    requires CanReach(s.(effects := s.effects[e := Moved(tr, s.effects[e])]), e, to)
    ensures CanReach(s, e, to)
  {
    OneCallMoves(s, c, e, tr);
    ReachOnward(s, [Read(c, e, tr), Update(c)], e, to);
  }

  /** From dispatch_pending on an effect can be settled either way the owner says. */
  lemma {:induction false} CanBeSettled(s: System, c: Id, e: Id, to: State)
    requires c !in s.callers && e in s.effects && to in {Confirmed, Reconciled, Compensated, Failed}
    requires s.effects[e].state in {DispatchPending, Dispatched, Observed, OutcomeUnknown}
    ensures CanReach(s, e, to)
    decreases 4 - Rank(s.effects[e].state)
  {
    if s.effects[e].state in {Observed, OutcomeUnknown} {
      OneCallMoves(s, c, e, Resolve(to, None));
      ReachedBy(s, e, to, [Read(c, e, Resolve(to, None)), Update(c)]);
    } else {
      var tr := if s.effects[e].state == Dispatched then MarkObserved("") else MarkDispatched("");
      CanBeSettled(s.(effects := s.effects[e := Moved(tr, s.effects[e])]), c, e, to);
      OneMoveCloser(s, c, e, tr, to);
    }
  }

  // ---- out of admitted -----------------------------------------------------------------------------------

  /** An admitted effect whose decision is unspent. */
  ghost predicate Unspent(s: System, e: Id) {
    && e in s.effects && s.effects[e].state == Admitted
    && s.effects[e].decision in s.ledger.tables.decisions
    && s.ledger.tables.decisions[s.effects[e].decision].consumedAt == None
  }

  /** The call that ships it, with the payload it was proposed with, at this reading of the clock. */
  function Ship(s: System, c: Id, e: Id, now: Policy.Time): seq<Event>
    requires e in s.proposed
  {
    [Read(c, e, MarkDispatchPending(s.proposed[e])), Consume(c, now, now), Update(c)]
  }

  lemma ReadsToShip(s: System, c: Id, e: Id, payload: Policy.Payload)
    requires e in s.effects && s.effects[e].state == Admitted && c !in s.callers
    ensures Next(s, Read(c, e, MarkDispatchPending(payload))) ==
            s.(callers := s.callers[c := Guarded(Once, ToShip, MarkDispatchPending(payload), e, s.effects[e])])
  {
  }

  lemma ConsumesToShip(s: System, c: Id, job: Job, tr: Transition, e: Id, read: Effect, now: Policy.Time)
    requires c in s.callers && s.callers[c] == Guarded(job, ToShip, tr, e, read) && tr.MarkDispatchPending?
    requires Policy.DigestOf(tr.payload).Some?
    requires Policy.ConsumeCheck(s.ledger.tables, read.decision, Policy.DigestOf(tr.payload).value, now) == None
    ensures var t := Next(s, Consume(c, now, now));
      && t.effects == s.effects && t.started == s.started
      && t.callers == s.callers[c := Consumed(job, ToShip, tr, e, read)]
  {
  }

  lemma UpdatesToShip(s: System, c: Id, tr: Transition, e: Id)
    requires e in s.effects && tr.MarkDispatchPending?
    requires c in s.callers && s.callers[c] == Consumed(Once, ToShip, tr, e, s.effects[e])
    ensures var t := Next(s, Update(c));
      t.callers == s.callers - {c} && e in t.effects && t.effects[e].state == DispatchPending
  {
  }

  lemma DecisionIsUsable(s: System, e: Id, now: Policy.Time)
    requires Inv(s) && Unspent(s, e) && now < s.ledger.tables.decisions[s.effects[e].decision].expiresAt
    ensures e in s.proposed && Policy.DigestOf(s.proposed[e]) == Some(s.effects[e].forwardDigest)
    ensures Policy.ConsumeCheck(s.ledger.tables, s.effects[e].decision, s.effects[e].forwardDigest, now) == None
  {
    assert RowOk(s, e);
  }

  /** After the read: consume and move. */
  lemma ReadShips(s: System, c: Id, tr: Transition, e: Id, now: Policy.Time)
    requires e in s.effects && tr.MarkDispatchPending? && Policy.DigestOf(tr.payload).Some?
    requires c in s.callers && s.callers[c] == Guarded(Once, ToShip, tr, e, s.effects[e])
    requires Policy.ConsumeCheck(s.ledger.tables, s.effects[e].decision, Policy.DigestOf(tr.payload).value, now) == None
    ensures var t := Run(s, [Consume(c, now, now), Update(c)]);
      t.callers == s.callers - {c} && e in t.effects && t.effects[e].state == DispatchPending
  {
    ConsumesToShip(s, c, Once, tr, e, s.effects[e], now);
    var consumed := Next(s, Consume(c, now, now));
    UpdatesToShip(consumed, c, tr, e);
    assert consumed.callers - {c} == s.callers - {c};
    RunOfTwo(s, Consume(c, now, now), Update(c));
  }

  lemma ShipMoves(s: System, c: Id, e: Id, now: Policy.Time)
    requires e in s.effects && s.effects[e].state == Admitted && c !in s.callers
    requires e in s.proposed && Policy.DigestOf(s.proposed[e]).Some?
    requires Policy.ConsumeCheck(s.ledger.tables, s.effects[e].decision, Policy.DigestOf(s.proposed[e]).value, now) == None
    ensures var t := Run(s, Ship(s, c, e, now));
      t.callers == s.callers && e in t.effects && t.effects[e].state == DispatchPending
  {
    var tr := MarkDispatchPending(s.proposed[e]);
    ReadsToShip(s, c, e, s.proposed[e]);
    var read := Next(s, Read(c, e, tr));
    ReadShips(read, c, tr, e, now);
    assert read.callers - {c} == s.callers;
    assert Ship(s, c, e, now) == [Read(c, e, tr)] + [Consume(c, now, now), Update(c)];
    RunOfAppend(s, [Read(c, e, tr)], [Consume(c, now, now), Update(c)]);
    RunOfOne(s, Read(c, e, tr));
  }

  /** It can be shipped at any moment before its decision expires. */
  lemma UnspentShips(s: System, c: Id, e: Id, now: Policy.Time)
    requires Inv(s) && Unspent(s, e) && c !in s.callers
    requires now < s.ledger.tables.decisions[s.effects[e].decision].expiresAt
    ensures e in s.proposed
    ensures var t := Run(s, Ship(s, c, e, now));
      t.callers == s.callers && e in t.effects && t.effects[e].state == DispatchPending
  {
    DecisionIsUsable(s, e, now);
    ShipMoves(s, c, e, now);
  }

  lemma UnspentCanBeSettled(s: System, c: Id, e: Id, to: State)
    requires Inv(s) && Unspent(s, e) && c !in s.callers && to in {Confirmed, Reconciled, Compensated, Failed}
    ensures CanReach(s, e, to)
  {
    var now := s.ledger.tables.decisions[s.effects[e].decision].expiresAt - 1;
    UnspentShips(s, c, e, now);
    CanBeSettled(Run(s, Ship(s, c, e, now)), c, e, to);
    ReachOnward(s, Ship(s, c, e, now), e, to);
  }

  lemma LandingMeetsNobody(s: System, holder: Id, c: Id)
    requires c !in s.callers
    ensures c !in Next(s, Update(holder)).callers
  {
  }

  /** A live caller that is past the consumption lands first. */
  lemma ConsumedCanBeSettled(s: System, c: Id, holder: Id, e: Id, to: State)
    requires Inv(s) && holder in s.callers && s.callers[holder].Consumed? && s.callers[holder].effect == e
    requires c !in s.callers && to in {Confirmed, Reconciled, Compensated, Failed}
    ensures CanReach(s, e, to)
  {
    ConsumerAlwaysLands(s, holder);
    var t := Next(s, Update(holder));
    RunOfOne(s, Update(holder));
    LandingMeetsNobody(s, holder, c);
    CanBeSettled(t, c, e, to);
    ReachOnward(s, [Update(holder)], e, to);
  }

  // ---- and nothing else ----------------------------------------------------------------------------------

  lemma NoEdgeLeavesTerminal(a: Effect, b: Effect)
    requires Edge(a, b)
    ensures !IsTerminal(a.state)
  {
  }

  lemma SettledStays(s: System, ev: Event, e: Id)
    requires Inv(s) && e in s.effects && IsTerminal(s.effects[e].state)
    ensures e in Next(s, ev).effects && Next(s, ev).effects[e] == s.effects[e]
  {
    EveryChangeIsAnEdge(s, ev, e);
    if Next(s, ev).effects[e] != s.effects[e] {
      NoEdgeLeavesTerminal(s.effects[e], Next(s, ev).effects[e]);
    }
  }

  lemma {:induction false} SettledForEver(s: System, events: seq<Event>, e: Id)
    requires Inv(s) && e in s.effects && IsTerminal(s.effects[e].state)
    ensures e in Run(s, events).effects && Run(s, events).effects[e] == s.effects[e]
    decreases |events|
  {
    if events != [] {
      NextKeepsInv(s, events[0]);
      SettledStays(s, events[0], e);
      SettledForEver(Next(s, events[0]), events[1..], e);
    }
  }

  /** It is settled with another verdict, waits for approval, was rejected, or is stranded. */
  ghost predicate IsStuck(s: System, e: Id, to: State)
    requires e in s.effects
  {
    || (s.effects[e].state in {Confirmed, Reconciled, Compensated, Failed} && s.effects[e].state != to)
    || s.effects[e].state in {NeedsApproval, Rejected} || Stranded(s, e)
  }

  lemma StuckStaysStuck(s: System, e: Id, to: State)
    requires Inv(s) && e in s.effects && IsStuck(s, e, to) && to in {Confirmed, Reconciled, Compensated, Failed}
    ensures !CanReach(s, e, to)
  {
    forall events | e in Run(s, events).effects ensures Run(s, events).effects[e].state != to {
      if s.effects[e].state in {NeedsApproval, Rejected} {
        HeldEffectsNeverMove(s, events, e);
      } else if s.effects[e].state == Admitted {
        StrandedForEver(s, events, e);
      } else {
        SettledForEver(s, events, e);
      }
    }
  }

  lemma OthersCanBeSettled(s: System, e: Id, to: State)
    requires Inv(s) && e in s.effects && !IsStuck(s, e, to) && to in {Confirmed, Reconciled, Compensated, Failed}
    ensures CanReach(s, e, to)
  {
    var c := SomeNumberIsMissing(s.callers.Keys);
    assert RowOk(s, e);
    if s.effects[e].state == to {
      ReachedBy(s, e, to, []);
    } else if s.effects[e].state != Admitted {
      CanBeSettled(s, c, e, to);
    } else if Unspent(s, e) {
      UnspentCanBeSettled(s, c, e, to);
    } else {
      var holder :| holder in s.callers && s.callers[holder].Consumed? && s.callers[holder].effect == e;
      ConsumedCanBeSettled(s, c, holder, e, to);
    }
  }

  /** In every reachable state, whatever callers, crashes and restarts led there: an effect can still be confirmed,
      reconciled, compensated or failed, by some run from there with clocks that read some time before its decision
      expires, unless it is settled otherwise, waits for approval, was rejected, or is stranded; and then it never is. */
  lemma CanBeSettledIffNotStuck(events: seq<Event>, e: Id, to: State)
    requires e in Run(EMPTY, events).effects && to in {Confirmed, Reconciled, Compensated, Failed}
    ensures var s := Run(EMPTY, events); CanReach(s, e, to) <==> !IsStuck(s, e, to)
  {
    var s := Run(EMPTY, events);
    RunKeepsInv(EMPTY, events);
    if IsStuck(s, e, to) {
      StuckStaysStuck(s, e, to);
    } else {
      OthersCanBeSettled(s, e, to);
    }
  }

  // ---- a tracked call from its proposal to its end -------------------------------------------------------

  /** The caller holds the effect between two stages of its tracked call. */
  predicate At(s: System, c: Id, e: Id, payload: Policy.Payload, stage: Stage, state: State) {
    && c in s.callers && s.callers[c] == Between(Tracked(payload), stage, e)
    && e in s.effects && s.effects[e].state == state
  }

  /** One tracking call of a later stage. */
  lemma OneStage(s: System, c: Id, e: Id, payload: Policy.Payload, stage: Stage, tr: Transition)
    requires c in s.callers && s.callers[c] == Between(Tracked(payload), stage, e) && Wants(Tracked(payload), stage, tr)
    requires e in s.effects && Guard(tr, s.effects[e].state) == None && !tr.MarkDispatchPending?
    ensures Run(s, [ReadNext(c, tr), Update(c)]) ==
            s.(effects := s.effects[e := Moved(tr, s.effects[e])],
               callers := Continue(s.callers, c, Tracked(payload), stage, e))
  {
    var read := Next(s, ReadNext(c, tr));
    assert read == s.(callers := s.callers[c := Guarded(Tracked(payload), stage, tr, e, s.effects[e])]);
    assert read.callers - {c} == s.callers - {c};
    RunOfTwo(s, ReadNext(c, tr), Update(c));
  }

  function Dispatching(c: Id, command: string): seq<Event> {
    [ReadNext(c, MarkDispatched(command)), Update(c)]
  }

  function Calling(c: Id, ok: bool): seq<Event> {
    [StartFunction(c), EndFunction(c, ok)]
  }

  function Observing(c: Id): seq<Event> {
    [ReadNext(c, MarkObserved("")), Update(c)]
  }

  function Settling(c: Id, ok: bool, error: Option<EffectError>): seq<Event> {
    [ReadNext(c, Resolve(if ok then Confirmed else Failed, error)), Update(c)]
  }

  lemma Dispatches(s: System, c: Id, e: Id, payload: Policy.Payload, command: string)
    requires At(s, c, e, payload, ToDispatch, DispatchPending)
    ensures var t := Run(s, Dispatching(c, command));
      At(t, c, e, payload, ToRun, Dispatched) && t.effects[e].externalCommand == command && t.started == s.started
  {
    OneStage(s, c, e, payload, ToDispatch, MarkDispatched(command));
  }

  lemma CallsOnce(s: System, c: Id, e: Id, payload: Policy.Payload, ok: bool)
    requires At(s, c, e, payload, ToRun, Dispatched)
    ensures var t := Run(s, Calling(c, ok));
      At(t, c, e, payload, ToObserve(ok), Dispatched) && t.effects == s.effects && t.started == s.started + [e]
  {
    RunOfTwo(s, StartFunction(c), EndFunction(c, ok));
  }

  lemma Observes(s: System, c: Id, e: Id, payload: Policy.Payload, ok: bool)
    requires At(s, c, e, payload, ToObserve(ok), Dispatched)
    ensures var t := Run(s, Observing(c)); At(t, c, e, payload, ToResolve(ok), Observed) && t.started == s.started
  {
    OneStage(s, c, e, payload, ToObserve(ok), MarkObserved(""));
  }

  lemma Settles(s: System, c: Id, e: Id, payload: Policy.Payload, ok: bool, error: Option<EffectError>)
    requires At(s, c, e, payload, ToResolve(ok), Observed)
    ensures var t := Run(s, Settling(c, ok, error));
      && c !in t.callers && e in t.effects && t.started == s.started
      && t.effects[e].state == (if ok then Confirmed else Failed) && t.effects[e].error == error
  {
    OneStage(s, c, e, payload, ToResolve(ok), Resolve(if ok then Confirmed else Failed, error));
  }

  /** From where the call was released: its remaining steps. */
  function ToTheEnd(c: Id, command: string, ok: bool, error: Option<EffectError>): seq<Event> {
    Dispatching(c, command) + (Calling(c, ok) + (Observing(c) + Settling(c, ok, error)))
  }

  /** A tracked call that nobody disturbs starts its function once, after the effect is marked dispatched, and leaves the
      effect confirmed if the function succeeded and failed, with its error, if it did not. */
  lemma ATrackedCallEndsAsItsFunctionDid(s: System, c: Id, e: Id, payload: Policy.Payload, command: string, ok: bool,
                                         error: Option<EffectError>)
    requires At(s, c, e, payload, ToDispatch, DispatchPending)
    ensures var t := Run(s, ToTheEnd(c, command, ok, error));
      && c !in t.callers && e in t.effects && t.started == s.started + [e]
      && t.effects[e].state == (if ok then Confirmed else Failed) && t.effects[e].error == error
  {
    Dispatches(s, c, e, payload, command);
    var s1 := Run(s, Dispatching(c, command));
    CallsOnce(s1, c, e, payload, ok);
    var s2 := Run(s1, Calling(c, ok));
    Observes(s2, c, e, payload, ok);
    var s3 := Run(s2, Observing(c));
    Settles(s3, c, e, payload, ok, error);
    RunOfAppend(s2, Observing(c), Settling(c, ok, error));
    RunOfAppend(s1, Calling(c, ok), Observing(c) + Settling(c, ok, error));
    RunOfAppend(s, Dispatching(c, command), Calling(c, ok) + (Observing(c) + Settling(c, ok, error)));
  }

  /** A launch goes on when its observation cannot be recorded; its verdict cannot be recorded then either, and the effect
      stays dispatched, for the next recovery to find. */
  lemma AnUnobservedCallStaysDispatched(s: System, c: Id, e: Id, payload: Policy.Payload, ok: bool,
                                        error: Option<EffectError>)
    requires At(s, c, e, payload, ToObserve(ok), Dispatched)
    ensures var t := Run(s, [SkipObserve(c), ReadNext(c, Resolve(if ok then Confirmed else Failed, error))]);
      c !in t.callers && t.effects == s.effects && t.started == s.started
  {
    var verdict := ReadNext(c, Resolve(if ok then Confirmed else Failed, error));
    RunOfTwo(s, SkipObserve(c), verdict);
    assert At(Next(s, SkipObserve(c)), c, e, payload, ToResolve(ok), Dispatched);
    assert Possible(Next(s, SkipObserve(c)), verdict);
  }

  /** Propose and MarkDispatchPending of a tracked call. */
  function Releasing(c: Id, e: Id, req: Request, now: Policy.Time, decision: Id, approval: Id, at: Policy.Time): seq<Event> {
    [Decide(c, Tracked(req.payload), req, now, decision, approval), Insert(c, e)]
    + [ReadNext(c, MarkDispatchPending(req.payload)), Consume(c, at, at), Update(c)]
  }

  predicate AllNew(s: System, c: Id, e: Id, decision: Id, approval: Id) {
    && c !in s.callers && e !in s.effects
    && decision !in s.ledger.tables.decisions && approval !in s.ledger.tables.approvals
  }

  lemma Decides(s: System, c: Id, req: Request, now: Policy.Time, decision: Id, approval: Id)
    requires c !in s.callers && decision !in s.ledger.tables.decisions && approval !in s.ledger.tables.approvals
    requires WellFormed(req) && req.reversibility == Policy.Verified && req.payload.Json?
    ensures var t := Next(s, Decide(c, Tracked(req.payload), req, now, decision, approval));
      && t.callers == s.callers[c := Proposing(Tracked(req.payload), req, decision)]
      && t.effects == s.effects && t.started == s.started && decision in t.ledger.tables.decisions
      && t.ledger.tables.decisions[decision] ==
         Policy.Decision(req.operationId, Policy.Sha256(req.payload.text), Policy.Admit, now, now + 300_000, None, None)
  {
  }

  lemma Inserts(s: System, c: Id, e: Id, req: Request, decision: Id)
    requires c in s.callers && s.callers[c] == Proposing(Tracked(req.payload), req, decision) && e !in s.effects
    requires decision in s.ledger.tables.decisions && s.ledger.tables.decisions[decision].verdict == Policy.Admit
    ensures var t := Next(s, Insert(c, e));
      && At(t, c, e, req.payload, ToShip, Admitted) && t.started == s.started && t.effects[e].decision == decision
      && t.ledger == s.ledger
  {
  }

  lemma Proposes(s: System, c: Id, e: Id, req: Request, now: Policy.Time, decision: Id, approval: Id)
    requires AllNew(s, c, e, decision, approval) && WellFormed(req) && req.reversibility == Policy.Verified
    requires req.payload.Json?
    ensures var t := Run(s, [Decide(c, Tracked(req.payload), req, now, decision, approval), Insert(c, e)]);
      && At(t, c, e, req.payload, ToShip, Admitted) && t.started == s.started && t.effects[e].decision == decision
      && decision in t.ledger.tables.decisions
      && t.ledger.tables.decisions[decision] ==
         Policy.Decision(req.operationId, Policy.Sha256(req.payload.text), Policy.Admit, now, now + 300_000, None, None)
  {
    var decide := Decide(c, Tracked(req.payload), req, now, decision, approval);
    Decides(s, c, req, now, decision, approval);
    Inserts(Next(s, decide), c, e, req, decision);
    RunOfTwo(s, decide, Insert(c, e));
  }

  lemma UpdatesToDispatch(s: System, c: Id, e: Id, payload: Policy.Payload, tr: Transition)
    requires e in s.effects && tr.MarkDispatchPending?
    requires c in s.callers && s.callers[c] == Consumed(Tracked(payload), ToShip, tr, e, s.effects[e])
    ensures At(Next(s, Update(c)), c, e, payload, ToDispatch, DispatchPending) && Next(s, Update(c)).started == s.started
  {
  }

  lemma ReadsNextToShip(s: System, c: Id, e: Id, payload: Policy.Payload)
    requires At(s, c, e, payload, ToShip, Admitted)
    ensures Next(s, ReadNext(c, MarkDispatchPending(payload))) ==
      s.(callers := s.callers[c := Guarded(Tracked(payload), ToShip, MarkDispatchPending(payload), e, s.effects[e])])
  {
  }

  lemma Releases(s: System, c: Id, e: Id, payload: Policy.Payload, at: Policy.Time)
    requires At(s, c, e, payload, ToShip, Admitted) && payload.Json?
    requires Policy.ConsumeCheck(s.ledger.tables, s.effects[e].decision, Policy.Sha256(payload.text), at) == None
    ensures var t := Run(s, [ReadNext(c, MarkDispatchPending(payload)), Consume(c, at, at), Update(c)]);
      At(t, c, e, payload, ToDispatch, DispatchPending) && t.started == s.started
  {
    var tr := MarkDispatchPending(payload);
    assert [ReadNext(c, tr), Consume(c, at, at), Update(c)] == [ReadNext(c, tr)] + [Consume(c, at, at), Update(c)];
    RunOfAppend(s, [ReadNext(c, tr)], [Consume(c, at, at), Update(c)]);
    RunOfOne(s, ReadNext(c, tr));
    ReadsNextToShip(s, c, e, payload);
    var read := Next(s, ReadNext(c, tr));
    ConsumesToShip(read, c, Tracked(payload), tr, e, s.effects[e], at);
    UpdatesToDispatch(Next(read, Consume(c, at, at)), c, e, payload, tr);
    RunOfTwo(read, Consume(c, at, at), Update(c));
  }

  /** From any state at all: a tracked call that is declared verified gets as far as that if its decision is consumed within
      five minutes of being made. */
  lemma ATrackedCallIsReleased(s: System, c: Id, e: Id, req: Request, now: Policy.Time, decision: Id, approval: Id,
                               at: Policy.Time)
    requires AllNew(s, c, e, decision, approval) && WellFormed(req) && req.reversibility == Policy.Verified
    requires req.payload.Json? && at < now + 300_000
    ensures var t := Run(s, Releasing(c, e, req, now, decision, approval, at));
      At(t, c, e, req.payload, ToDispatch, DispatchPending) && t.started == s.started
  {
    Proposes(s, c, e, req, now, decision, approval);
    var proposing := [Decide(c, Tracked(req.payload), req, now, decision, approval), Insert(c, e)];
    Releases(Run(s, proposing), c, e, req.payload, at);
    RunOfAppend(s, proposing, [ReadNext(c, MarkDispatchPending(req.payload)), Consume(c, at, at), Update(c)]);
  }

  // ---- what really happens -------------------------------------------------------------------------------

  /** From where a call of its own has proposed an effect: it reads, consumes, and is gone. */
  function Abandoning(c: Id, e: Id, payload: Policy.Payload, at: Policy.Time): seq<Event> {
    [Read(c, e, MarkDispatchPending(payload)), Consume(c, at, at), Vanish(c)]
  }

  lemma SpendsItsDecision(s: System, c: Id, at: Policy.Time)
    requires c in s.callers && s.callers[c].Guarded? && s.callers[c].tr.MarkDispatchPending?
    requires c in Next(s, Consume(c, at, at)).callers
    ensures var d := s.callers[c].read.decision;
      && d in Next(s, Consume(c, at, at)).ledger.tables.decisions
      && Next(s, Consume(c, at, at)).ledger.tables.decisions[d].consumedAt.Some?
  {
  }

  lemma AbandonedIsStranded(s: System, c: Id, e: Id, tr: Transition, at: Policy.Time)
    requires e in s.effects && s.effects[e].state == Admitted && tr.MarkDispatchPending?
    requires c in s.callers && s.callers[c] == Guarded(Once, ToShip, tr, e, s.effects[e])
    requires Policy.DigestOf(tr.payload).Some?
    requires Policy.ConsumeCheck(s.ledger.tables, s.effects[e].decision, Policy.DigestOf(tr.payload).value, at) == None
    requires forall x :: x in s.callers && s.callers[x].Consumed? ==> s.callers[x].effect != e
    ensures Stranded(Run(s, [Consume(c, at, at), Vanish(c)]), e)
  {
    ConsumesToShip(s, c, Once, tr, e, s.effects[e], at);
    SpendsItsDecision(s, c, at);
    RunOfTwo(s, Consume(c, at, at), Vanish(c));
  }

  lemma AbandoningStrands(s: System, c: Id, e: Id, at: Policy.Time)
    requires e in s.effects && s.effects[e].state == Admitted && c !in s.callers
    requires e in s.proposed && Policy.DigestOf(s.proposed[e]).Some?
    requires Policy.ConsumeCheck(s.ledger.tables, s.effects[e].decision, Policy.DigestOf(s.proposed[e]).value, at) == None
    requires forall x :: x in s.callers && s.callers[x].Consumed? ==> s.callers[x].effect != e
    ensures Stranded(Run(s, Abandoning(c, e, s.proposed[e], at)), e)
  {
    var tr := MarkDispatchPending(s.proposed[e]);
    ReadsToShip(s, c, e, s.proposed[e]);
    AbandonedIsStranded(Next(s, Read(c, e, tr)), c, e, tr, at);
    assert Abandoning(c, e, s.proposed[e], at) == [Read(c, e, tr)] + [Consume(c, at, at), Vanish(c)];
    RunOfAppend(s, [Read(c, e, tr)], [Consume(c, at, at), Vanish(c)]);
    RunOfOne(s, Read(c, e, tr));
  }

  /** An admitted effect can really be stranded: the caller that consumed its decision stops before its update. */
  lemma AnEffectCanBeStranded(s: System, c: Id, e: Id, at: Policy.Time)
    requires Inv(s) && Unspent(s, e) && c !in s.callers
    requires at < s.ledger.tables.decisions[s.effects[e].decision].expiresAt
    ensures e in s.proposed && Stranded(Run(s, Abandoning(c, e, s.proposed[e], at)), e)
  {
    DecisionIsUsable(s, e, at);
    NobodyIsPast(s, e);
    AbandoningStrands(s, c, e, at);
  }

  lemma NobodyIsPast(s: System, e: Id)
    requires Inv(s) && Unspent(s, e)
    ensures forall x :: x in s.callers && s.callers[x].Consumed? ==> s.callers[x].effect != e
  {
    forall x | x in s.callers && s.callers[x].Consumed? ensures s.callers[x].effect != e {
      assert CallerOk(s, s.callers[x]);
    }
  }

  /** And its function can really be interrupted: the daemon dies while it runs, and recovery marks the effect as of
      unknown outcome; from there its owner can still settle it either way. */
  lemma AnInterruptedCallIsRecovered(s: System, c: Id, e: Id, payload: Policy.Payload, to: State)
    requires At(s, c, e, payload, ToRun, Dispatched) && to in {Confirmed, Reconciled, Compensated, Failed}
    ensures var t := Run(s, [StartFunction(c), Restart({e})]);
      && t.callers == map[] && e in t.effects && t.effects[e].state == OutcomeUnknown && t.started == s.started + [e]
      && CanReach(t, e, to)
  {
    RunOfTwo(s, StartFunction(c), Restart({e}));
    CanBeSettled(Run(s, [StartFunction(c), Restart({e})]), c, e, to);
  }

  // ---- run alone, the steps are the call -----------------------------------------------------------------

  function BooksOf(s: System): Books {
    Books(s.ledger.tables, s.effects)
  }

  /** Read and update by a caller that nobody interrupts do what the engine's call does, whether it succeeds or fails. */
  lemma MarkAloneIsTheCall(s: System, c: Id, e: Id, tr: Transition)
    requires c !in s.callers && !tr.MarkDispatchPending?
    ensures var t := Run(s, [Read(c, e, tr), Update(c)]);
      BooksOf(t) == MarkCall(BooksOf(s), e, tr, Nothing).0 && t.callers == s.callers && t.ledger == s.ledger
  {
    if ReadAndGuard(s.effects, e, tr).Success? {
      OneCallMoves(s, c, e, tr);
    } else {
      RunOfTwo(s, Read(c, e, tr), Update(c));
    }
  }

  lemma ConsumedAlone(s: System, c: Id, e: Id, tr: Transition, now: Policy.Time, stamp: Policy.Time)
    requires e in s.effects && tr.MarkDispatchPending? && Policy.DigestOf(tr.payload).Some?
    requires c in s.callers && s.callers[c] == Guarded(Once, ToShip, tr, e, s.effects[e])
    ensures var t := Next(Next(s, Consume(c, now, stamp)), Update(c));
      var (tables, r) := Policy.Consume(s.ledger.tables, s.effects[e].decision, Policy.DigestOf(tr.payload).value, now, stamp);
      && t.callers == s.callers - {c} && t.ledger.tables == tables
      && t.effects == if r.Success? then s.effects[e := Moved(tr, s.effects[e])] else s.effects
  {
    var next := Next(s, Consume(c, now, stamp));
    if c in next.callers {
      assert next.callers - {c} == s.callers - {c};
    }
  }

  /** So do read, consume and update. */
  lemma ShipAloneIsTheCall(s: System, c: Id, e: Id, payload: Policy.Payload, now: Policy.Time, stamp: Policy.Time)
    requires c !in s.callers
    ensures var tr := MarkDispatchPending(payload);
      var t := Next(Next(Next(s, Read(c, e, tr)), Consume(c, now, stamp)), Update(c));
      BooksOf(t) == DispatchPendingCall(BooksOf(s), e, payload, now, stamp, Nothing).0 && t.callers == s.callers
  {
    var tr := MarkDispatchPending(payload);
    if ReadAndGuard(s.effects, e, tr).Success? {
      ReadsToShip(s, c, e, payload);
      var read := Next(s, Read(c, e, tr));
      assert read.callers - {c} == s.callers;
      if payload.Json? {
        ConsumedAlone(read, c, e, tr, now, stamp);
      }
    }
  }

  /** The decision of a proposal, with its caller about to insert. */
  lemma DecidedAlone(s: System, c: Id, req: Request, now: Policy.Time, decision: Id, approval: Id)
    requires c !in s.callers && decision !in s.ledger.tables.decisions && approval !in s.ledger.tables.approvals
    requires WellFormed(req)
    ensures var t := Next(s, Decide(c, Once, req, now, decision, approval));
      var (tables, r) := Policy.Decide(s.ledger.tables, req.operationId, req.payload, req.reversibility, now, decision, approval);
      && t.ledger.tables == tables && t.effects == s.effects
      && (r.Success? <==> decision in tables.decisions)
      && t.callers == if r.Success? then s.callers[c := Proposing(Once, req, decision)] else s.callers
  {
  }

  /** And so do decide and insert. */
  lemma ProposeAloneIsTheCall(s: System, c: Id, e: Id, req: Request, now: Policy.Time, decision: Id, approval: Id)
    requires AllNew(s, c, e, decision, approval)
    ensures var t := Next(Next(s, Decide(c, Once, req, now, decision, approval)), Insert(c, e));
      BooksOf(t) == ProposeCall(BooksOf(s), req, now, e, decision, approval, Nothing).0 && t.callers == s.callers
  {
    if WellFormed(req) {
      DecidedAlone(s, c, req, now, decision, approval);
      var decided := Next(s, Decide(c, Once, req, now, decision, approval));
      if c in decided.callers {
        assert decided.callers - {c} == s.callers;
      }
    }
  }
}
