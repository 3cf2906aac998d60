/** What every run of the operations engine guarantees, for any number of callers, any interleaving of their
    reads, consumptions and updates, any clock readings, and any crash points. */
module EffectTheorems {
  import opened Wrappers
  import opened Operations
  import opened EffectRuns
  import Policy
  import L = PolicyLedger

  // ---- the read-then-compare-and-swap code refines atomic transitions -------------------------------------

  /** Every step turns a stored effect into itself or along one edge of the lifecycle graph, taken from the
      state really in the table, however stale the caller's read was. */
  lemma EveryChangeIsAnEdge(s: System, ev: Event, e: Id)
    requires Inv(s) && e in s.effects
    ensures e in Next(s, ev).effects
    ensures Next(s, ev).effects[e] == s.effects[e] || Edge(s.effects[e], Next(s, ev).effects[e])
  {
    if Next(s, ev).effects != s.effects {
      OnlyTheseMoveRows(s, ev);
      if ev.Update? {
        ChangingUpdateLands(s, ev.caller);
        LandingMovesOne(s, ev.caller, e);
      } else if ev.Restart? {
        ReconcilingIsAnEdge(s, ev.reached, e);
      }
    }
  }

  lemma LandingMovesOne(s: System, c: Id, e: Id)
    requires Landing(s, c) && e in s.effects
    ensures var after := Next(s, Update(c)).effects;
      e in after && (after[e] == s.effects[e] || Edge(s.effects[e], after[e]))
  {
    UpdateLands(s, c);
  }

  lemma ReconcilingIsAnEdge(s: System, reached: set<Id>, e: Id)
    requires e in s.effects
    ensures var after := Next(s, Restart(reached)).effects;
      e in after && (after[e] == s.effects[e] || Edge(s.effects[e], after[e]))
  {
    assert Guard(MarkOutcomeUnknown, Dispatched) == None;
  }

  /** The effect table changes by an insertion, by an UPDATE that finds the version it read, and by a restart. */
  lemma OnlyTheseMoveRows(s: System, ev: Event)
    requires Next(s, ev).effects != s.effects
    ensures ev.Restart? || (Possible(s, ev) && (ev.Insert? || ev.Update?))
    ensures ev.Update? ==>
      var g := s.callers[ev.caller]; g.effect in s.effects && s.effects[g.effect].rowVersion == g.read.rowVersion
  {
  }

  lemma ChangingUpdateLands(s: System, c: Id)
    requires Body(s) && Next(s, Update(c)).effects != s.effects
    ensures Landing(s, c)
  {
    OnlyTheseMoveRows(s, Update(c));
    assert CallerOk(s, s.callers[c]);
    assert RowOk(s, s.callers[c].effect);
  }

  /** How many of these steps changed effect `e`. */
  ghost function Moves(s: System, events: seq<Event>, e: Id): nat
    decreases |events|
  {
    if events == [] then 0
    else
      var t := Next(s, events[0]);
      (if e in s.effects && e in t.effects && t.effects[e] != s.effects[e] then 1 else 0) + Moves(t, events[1..], e)
  }

  /** The row version counts the transitions, always equals the rank of the state, and so every effect stops
      after at most four transitions, whatever its callers do. */
  lemma {:induction false} VersionCountsTransitions(s: System, events: seq<Event>, e: Id)
    requires Inv(s) && e in s.effects
    ensures e in Run(s, events).effects
    ensures var now := Run(s, events).effects[e];
      now.rowVersion == s.effects[e].rowVersion + Moves(s, events, e) == Rank(now.state) <= 4
    decreases |events|
  {
    assert RowOk(s, e);
    if events != [] {
      var t := Next(s, events[0]);
      NextKeepsInv(s, events[0]);
      EveryChangeIsAnEdge(s, events[0], e);
      if t.effects[e] != s.effects[e] {
        EdgeClimbs(s.effects[e], t.effects[e]);
      }
      VersionCountsTransitions(t, events[1..], e);
    }
  }

  // ---- dispatch is bound to one consumed, unexpired, matching decision ----------------------------------

  /** The consumption that let effect `e` out: of its own admitted decision, for its own digest, checked
      before the decision's expiry. */
  ghost predicate ReleasedBy(s: System, e: Id, c: L.Consumption)
    requires e in s.effects
  {
    var r := s.effects[e];
    && c.decision == r.decision && c.digest == r.forwardDigest
    && r.decision in s.ledger.tables.decisions
    && var d := s.ledger.tables.decisions[r.decision];
       Policy.Consumable(d.verdict) && d.digest == r.forwardDigest && c.checkedAt < d.expiresAt
  }

  /** In every reachable state, an effect at dispatch_pending or later was released by a recorded
      consumption of its own decision, no other effect holds that decision, and the payload that shipped is
      the payload that was proposed. */
  lemma DispatchedEffectsAreBound(events: seq<Event>, e: Id)
    requires e in Run(EMPTY, events).effects && Rank(Run(EMPTY, events).effects[e].state) >= 1
    ensures var s := Run(EMPTY, events);
      && (exists i :: 0 <= i < |s.ledger.consumptions| && ReleasedBy(s, e, s.ledger.consumptions[i]))
      && (forall e' :: e' in s.effects && e' != e ==> s.effects[e'].decision != s.effects[e].decision)
      && e in s.shipped && e in s.proposed && s.shipped[e] == s.proposed[e]
      && Policy.DigestOf(s.shipped[e]) == Some(s.effects[e].forwardDigest)
  {
    var s := Run(EMPTY, events);
    RunKeepsInv(EMPTY, events);
    assert RowOk(s, e);
    assert L.WasConsumed(s.ledger, s.effects[e].decision);
    var i :| 0 <= i < |s.ledger.consumptions| && s.ledger.consumptions[i].decision == s.effects[e].decision;
    assert L.ConsumptionSound(s.ledger.tables, s.ledger.consumptions[i]);
    assert ReleasedBy(s, e, s.ledger.consumptions[i]);
  }

  /** What was declared decides: in every reachable state an effect is waiting for approval, and so never leaves, exactly if
      it was not declared verified when it was proposed; every other one was, and no effect is rejected. */
  lemma OnlyTheVerifiedGoOut(events: seq<Event>, e: Id)
    requires e in Run(EMPTY, events).effects
    ensures var s := Run(EMPTY, events);
      && s.effects[e].decision in s.ledger.declared
      && (s.effects[e].state == NeedsApproval <==> s.ledger.declared[s.effects[e].decision] != Policy.Verified)
      && s.effects[e].state != Rejected
  {
    RunKeepsInv(EMPTY, events);
    assert RowOk(Run(EMPTY, events), e);
  }

  /** An effect waiting for approval, or rejected, never moves, and its decision can never be consumed. */
  lemma {:induction false} HeldEffectsNeverMove(s: System, events: seq<Event>, e: Id)
    requires Inv(s) && e in s.effects && (s.effects[e].state.NeedsApproval? || s.effects[e].state.Rejected?)
    ensures e in Run(s, events).effects && Run(s, events).effects[e] == s.effects[e]
    ensures s.effects[e].decision in Run(s, events).ledger.tables.decisions
    ensures !Policy.Consumable(Run(s, events).ledger.tables.decisions[s.effects[e].decision].verdict)
    decreases |events|
  {
    assert RowOk(s, e);
    if events != [] {
      NextKeepsInv(s, events[0]);
      EveryChangeIsAnEdge(s, events[0], e);
      HeldEffectsNeverMove(Next(s, events[0]), events[1..], e);
    }
  }

  // ---- the window between Consume and the UPDATE -----------------------------------------------------

  /** Effect `e` is admitted, its decision is spent, and no live caller is past that consumption: someone else
      consumed it, or the caller that did has gone. */
  ghost predicate Stranded(s: System, e: Id) {
    && e in s.effects && s.effects[e].state.Admitted?
    && s.effects[e].decision in s.ledger.tables.decisions
    && s.ledger.tables.decisions[s.effects[e].decision].consumedAt.Some?
    && forall c :: c in s.callers && s.callers[c].Consumed? ==> s.callers[c].effect != e
  }

  /** A stranded effect stays stranded for ever: visible as admitted, never dispatched. */
  lemma {:induction false} StrandedForEver(s: System, events: seq<Event>, e: Id)
    requires Inv(s) && Stranded(s, e)
    ensures Stranded(Run(s, events), e) && Run(s, events).effects[e] == s.effects[e]
    decreases |events|
  {
    if events != [] {
      NextKeepsInv(s, events[0]);
      StrandedStep(s, events[0], e);
      StrandedForEver(Next(s, events[0]), events[1..], e);
    }
  }

  /** Only a consumer could move an admitted effect. */
  lemma StrandedIsNotLanding(s: System, c: Id, e: Id)
    requires Landing(s, c) && Stranded(s, e)
    ensures s.callers[c].effect != e
  {
    UpdateLands(s, c);
  }

  lemma StrandedSurvivesUpdate(s: System, c: Id, e: Id)
    requires Landing(s, c) && Stranded(s, e)
    ensures e in Next(s, Update(c)).effects && Next(s, Update(c)).effects[e] == s.effects[e]
  {
    UpdateLands(s, c);
    StrandedIsNotLanding(s, c, e);
  }

  lemma StrandedRowStays(s: System, ev: Event, e: Id)
    requires Body(s) && Stranded(s, e)
    ensures e in Next(s, ev).effects && Next(s, ev).effects[e] == s.effects[e]
  {
    if Next(s, ev).effects != s.effects {
      OnlyTheseMoveRows(s, ev);
      if ev.Update? {
        ChangingUpdateLands(s, ev.caller);
        StrandedSurvivesUpdate(s, ev.caller, e);
      }
    }
  }

  /** Nobody gets past a consumption that is already spent. */
  lemma NobodyElseConsumes(s: System, ev: Event, e: Id, c: Id)
    requires Stranded(s, e) && c in Next(s, ev).callers && Next(s, ev).callers[c].Consumed?
    requires c in s.callers ==> CallerOk(s, s.callers[c])
    ensures Next(s, ev).callers[c].effect != e
  {
    if !(c in s.callers && s.callers[c] == Next(s, ev).callers[c]) {
      OnlyConsumeConsumes(s, ev, c);
    }
  }

  lemma OnlyConsumeConsumes(s: System, ev: Event, c: Id)
    requires c in Next(s, ev).callers && Next(s, ev).callers[c].Consumed?
    requires !(c in s.callers && s.callers[c] == Next(s, ev).callers[c])
    ensures Possible(s, ev) && ev.Consume? && ev.caller == c
    ensures Next(s, ev).callers[c].effect == s.callers[c].effect
    ensures s.callers[c].read.decision in s.ledger.tables.decisions
      && s.ledger.tables.decisions[s.callers[c].read.decision].consumedAt.None?
  {
  }

  lemma StrandedStep(s: System, ev: Event, e: Id)
    requires Inv(s) && Stranded(s, e)
    ensures Stranded(Next(s, ev), e) && Next(s, ev).effects[e] == s.effects[e]
  {
    LedgerMoves(s, ev);
    StrandedRowStays(s, ev, e);
    forall c | c in Next(s, ev).callers && Next(s, ev).callers[c].Consumed? { NobodyElseConsumes(s, ev, e, c); }
  }

  /** The other half of the window: a caller that has consumed the decision and is still alive always lands
      its UPDATE, because nobody else can move the effect meanwhile. So an admitted effect with a spent
      decision is stranded exactly when the caller that spent it is gone. */
  lemma ConsumerAlwaysLands(s: System, c: Id)
    requires Inv(s) && c in s.callers && s.callers[c].Consumed?
    ensures var e := s.callers[c].effect; var t := Next(s, Update(c));
      && e in s.effects && s.effects[e].state.Admitted?
      && t.effects == s.effects[e := Moved(s.callers[c].tr, s.effects[e])] && t.effects[e].state.DispatchPending?
      && e in t.shipped && t.shipped[e] == s.callers[c].tr.payload
  {
    assert CallerOk(s, s.callers[c]);
  }

  /** An admitted effect with a spent decision either belongs to exactly one live caller that will land, or
      is stranded. */
  lemma SpentMeansLandingOrStranded(s: System, e: Id)
    requires Inv(s) && e in s.effects && s.effects[e].state.Admitted?
    requires s.ledger.tables.decisions[s.effects[e].decision].consumedAt.Some?
    ensures !Stranded(s, e) <==> exists c :: c in s.callers && s.callers[c].Consumed? && s.callers[c].effect == e
    ensures forall c, c' ::
      (&& c in s.callers && s.callers[c].Consumed? && s.callers[c].effect == e
       && c' in s.callers && s.callers[c'].Consumed? && s.callers[c'].effect == e) ==> c == c'
  {
    assert RowOk(s, e);
  }

  // ---- crashes -------------------------------------------------------------------------------------

  predicate Accounted(s: State) {
    s.OutcomeUnknown? || s.Observed? || IsTerminal(s)
  }

  /** The restart reaches every interrupted effect. */
  predicate Completes(s: System, reached: set<Id>) {
    forall e | e in s.effects :: s.effects[e].state.Dispatched? ==> e in reached
  }

  lemma StartedIsAccounted(s: System, reached: set<Id>)
    requires StartedOk(s) && Completes(s, reached)
    ensures var r := Recovered(s.effects, reached);
      && (forall i :: 0 <= i < |s.started| ==> s.started[i] in s.effects && Accounted(r[s.started[i]].state))
      && (forall e :: e in r && (r[e].state.Admitted? || r[e].state.DispatchPending?) ==>
            e !in s.started && s.effects[e] == r[e])
  {
  }

  lemma StartedHolds(events: seq<Event>)
    ensures StartedOk(Run(EMPTY, events))
  {
    RunKeepsInv(EMPTY, events);
  }

  /** Whatever the crash point: an external function that was ever started left its effect dispatched or
      later, and no effect's function was started twice. After a startup reconciliation that completes each such effect is
      outcome_unknown, observed or terminal, and one left in admitted or dispatch_pending proves its function
      never ran. */
  lemma CrashesLoseNothing(events: seq<Event>, reached: set<Id>)
    requires Completes(Run(EMPTY, events), reached)
    ensures var s := Run(EMPTY, events); var r := Next(s, Restart(reached));
      && (forall i :: 0 <= i < |s.started| ==>
            && s.started[i] in s.effects && Rank(s.effects[s.started[i]].state) >= 2
            && Accounted(r.effects[s.started[i]].state))
      && (forall i, j :: 0 <= i < j < |s.started| ==> s.started[i] != s.started[j])
      && (forall e :: e in r.effects && (r.effects[e].state.Admitted? || r.effects[e].state.DispatchPending?) ==>
            e !in s.started && s.effects[e] == r.effects[e])
  {
    StartedHolds(events);
    StartedIsAccounted(Run(EMPTY, events), reached);
  }

  /** Recovery changes exactly the dispatched effects it reaches, and nothing else. */
  lemma RestartReconcilesOnce(s: System, reached: set<Id>, e: Id)
    requires e in s.effects
    ensures var r := Next(s, Restart(reached));
      && e in r.effects && (r.effects[e] != s.effects[e] <==> e in reached && s.effects[e].state.Dispatched?)
      && r == s.(effects := r.effects, callers := map[])
  {
  }

  /** Whether or not it stops half-way, a recovery that completes afterwards leaves every interrupted effect marked, as
      if it had been the only one, and a further one changes nothing. */
  lemma RecoveryCompletes(s: System, reached: set<Id>, all: set<Id>, more: set<Id>)
    requires Completes(Next(s, Restart(reached)), all)
    ensures var done := Next(Next(s, Restart(reached)), Restart(all));
      done.effects == AllReconciled(s.effects) && Next(done, Restart(more)).effects == done.effects
  {
    var r := Next(s, Restart(reached));
    ReconcilingTwiceChangesNothing(s.effects, reached);
    assert Recovered(r.effects, all) == AllReconciled(r.effects);
    var done := Next(r, Restart(all));
    assert Recovered(done.effects, more) == done.effects;
  }

  lemma EdgesStayAccounted(a: Effect, b: Effect)
    requires Accounted(a.state) && Edge(a, b)
    ensures Accounted(b.state)
  {
  }

  /** What an effect's state says about its function stays true whatever happens after the restart: a
      function that ran stays accounted for, over any further run. */
  lemma {:induction false} AccountedForEver(s: System, events: seq<Event>, e: Id)
    requires Inv(s) && e in s.effects && Accounted(s.effects[e].state)
    ensures e in Run(s, events).effects && Accounted(Run(s, events).effects[e].state)
    decreases |events|
  {
    if events != [] {
      NextKeepsInv(s, events[0]);
      EveryChangeIsAnEdge(s, events[0], e);
      if Next(s, events[0]).effects[e] != s.effects[e] {
        EdgesStayAccounted(s.effects[e], Next(s, events[0]).effects[e]);
      }
      AccountedForEver(Next(s, events[0]), events[1..], e);
    }
  }
}
