/** Runs of the operations engine over the policy engine, by any number of concurrent callers.

    Consuming a decision and moving the effect are separate transactions, and every transition is a read, a
    check and a guarded UPDATE. A caller is therefore modelled by where it stands between those steps; a run
    is any sequence of single steps by any callers, mixed with direct policy calls, callers that vanish
    half-way, and daemon restarts. */
module EffectRuns {
  import opened Wrappers
  import opened Operations
  import Policy
  import L = PolicyLedger

  /** Why a caller makes a call: for itself, or as one stage of trackedLaunch or trackEffect. */
  datatype Job = Once | Tracked(payload: Policy.Payload)

  /** What a tracked call does next: its remaining tracking calls, with the external function between
      MarkDispatched and MarkObserved. */
  datatype Stage = ToShip | ToDispatch | ToRun | Running | ToObserve(ok: bool) | ToResolve(ok: bool)

  datatype Caller =
    | Proposing(job: Job, req: Request, decision: Id)                      // decided, not yet inserted
    | Guarded(job: Job, stage: Stage, tr: Transition, effect: Id, read: Effect)  // read, and the guard passed
    | Consumed(job: Job, stage: Stage, tr: Transition, effect: Id, read: Effect) // decision consumed, not yet moved
    | Between(job: Job, stage: Stage, effect: Id)                          // a tracked call between two steps

  /** Durable tables, callers in flight, and history: the payload each effect was proposed with and the one
      it was shipped with, and the effects whose tracked function was started, in order. */
  datatype System = System(
    ledger: L.Ledger,
    effects: map<Id, Effect>,
    callers: map<Id, Caller>,
    proposed: map<Id, Policy.Payload>,
    shipped: map<Id, Policy.Payload>,
    started: seq<Id>)

  const EMPTY := System(L.EMPTY, map[], map[], map[], map[], [])

  datatype Event =
    | PolicyCall(call: L.Call)
    | Decide(caller: Id, job: Job, req: Request, now: Policy.Time, decision: Id, approval: Id)
    | Insert(caller: Id, effect: Id)
    | Read(caller: Id, effect: Id, tr: Transition)
    | ReadNext(caller: Id, tr: Transition)
    | Consume(caller: Id, now: Policy.Time, stamp: Policy.Time)
    | Update(caller: Id)
    | StartFunction(caller: Id)
    | EndFunction(caller: Id, ok: bool)
    | SkipObserve(caller: Id)
    | Vanish(caller: Id)
    | Restart(reached: set<Id>)

  /** The tracking call a stage makes: the payload that was proposed is the one that ships, and the
      function's outcome picks the terminal state. */
  predicate Wants(job: Job, stage: Stage, tr: Transition) {
    match stage
    case ToShip => job.Tracked? && tr == MarkDispatchPending(job.payload)
    case ToDispatch => tr.MarkDispatched?
    case ToObserve(_) => tr.MarkObserved?
    case ToResolve(ok) => tr.Resolve? && tr.terminal == if ok then Confirmed else Failed
    case _ => false
  }

  /** Where a caller goes once its UPDATE has landed. */
  function Continue(callers: map<Id, Caller>, c: Id, job: Job, stage: Stage, effect: Id): map<Id, Caller> {
    if job.Once? then callers - {c}
    else
      match stage
      case ToShip => callers[c := Between(job, ToDispatch, effect)]
      case ToDispatch => callers[c := Between(job, ToRun, effect)]
      case ToObserve(ok) => callers[c := Between(job, ToResolve(ok), effect)]
      case _ => callers - {c}
  }

  predicate Possible(s: System, ev: Event) {
    match ev
    case PolicyCall(_) => true
    case Decide(c, job, req, _, decision, approval) =>
      && c !in s.callers && decision !in s.ledger.tables.decisions && approval !in s.ledger.tables.approvals
      && WellFormed(req)
      && (job.Tracked? ==> req.payload == job.payload)
    case Insert(c, e) => c in s.callers && s.callers[c].Proposing? && e !in s.effects
    case Read(c, _, _) => c !in s.callers
    case ReadNext(c, tr) => c in s.callers && s.callers[c].Between? && Wants(s.callers[c].job, s.callers[c].stage, tr)
    case Consume(c, _, _) => c in s.callers && s.callers[c].Guarded? && s.callers[c].tr.MarkDispatchPending?
    case Update(c) =>
      c in s.callers && (s.callers[c].Consumed? || (s.callers[c].Guarded? && !s.callers[c].tr.MarkDispatchPending?))
    case StartFunction(c) => c in s.callers && s.callers[c].Between? && s.callers[c].stage.ToRun?
    case EndFunction(c, _) => c in s.callers && s.callers[c].Between? && s.callers[c].stage.Running?
    case SkipObserve(c) => c in s.callers && s.callers[c].Between? && s.callers[c].stage.ToObserve?
    case Vanish(c) => c in s.callers
    case Restart(_) => true
  }

  /** One step. A step that is not possible changes nothing; a call that errors leaves the tables alone and
      its caller returns. SkipObserve is trackedLaunch swallowing a failed MarkObserved; Vanish is any other
      way to stop half-way; Restart kills every caller and runs ReconcileInterrupted before anything else, which may
      itself stop after some of the interrupted effects, those it reached. */
  function Next(s: System, ev: Event): System {
    if !Possible(s, ev) then s
    else
      match ev
      case PolicyCall(call) => s.(ledger := L.Next(s.ledger, call))
      case Decide(c, job, req, now, decision, approval) =>
        var call := L.Decide(req.operationId, req.payload, req.reversibility, now, decision, approval);
        var ledger := L.Next(s.ledger, call);
        if decision in ledger.tables.decisions
        then s.(ledger := ledger, callers := s.callers[c := Proposing(job, req, decision)])
        else s.(ledger := ledger)
      case Insert(c, e) =>
        var p := s.callers[c];
        if p.decision !in s.ledger.tables.decisions then s.(callers := s.callers - {c})
        else
          s.(effects := s.effects[e := Recorded(p.req, p.decision, s.ledger.tables.decisions[p.decision])],
             proposed := s.proposed[e := p.req.payload],
             callers := if p.job.Once? then s.callers - {c} else s.callers[c := Between(p.job, ToShip, e)])
      case Read(c, e, tr) =>
        var r := ReadAndGuard(s.effects, e, tr);
        if r.Failure? then s else s.(callers := s.callers[c := Guarded(Once, ToShip, tr, e, r.value)])
      case ReadNext(c, tr) =>
        var b := s.callers[c];
        var r := ReadAndGuard(s.effects, b.effect, tr);
        if r.Failure? then s.(callers := s.callers - {c})
        else s.(callers := s.callers[c := Guarded(b.job, b.stage, tr, b.effect, r.value)])
      case Consume(c, now, stamp) =>
        var g := s.callers[c];
        var digest := Policy.DigestOf(g.tr.payload);
        if digest.None? || Policy.ConsumeCheck(s.ledger.tables, g.read.decision, digest.value, now).Some?
        then s.(callers := s.callers - {c})
        else s.(ledger := L.Next(s.ledger, L.Consume(g.read.decision, digest.value, now, stamp)),
                callers := s.callers[c := Consumed(g.job, g.stage, g.tr, g.effect, g.read)])
      case Update(c) =>
        var g := s.callers[c];
        var (effects, r) := UpdateState(s.effects, g.effect, g.read.rowVersion, g.tr);
        if r.Failure? then s.(callers := s.callers - {c})
        else s.(effects := effects,
                shipped := if g.tr.MarkDispatchPending? then s.shipped[g.effect := g.tr.payload] else s.shipped,
                callers := Continue(s.callers, c, g.job, g.stage, g.effect))
      case StartFunction(c) =>
        s.(started := s.started + [s.callers[c].effect], callers := s.callers[c := s.callers[c].(stage := Running)])
      case EndFunction(c, ok) => s.(callers := s.callers[c := s.callers[c].(stage := ToObserve(ok))])
      case SkipObserve(c) => s.(callers := s.callers[c := s.callers[c].(stage := ToResolve(s.callers[c].stage.ok))])
      case Vanish(c) => s.(callers := s.callers - {c})
      case Restart(reached) => s.(effects := Recovered(s.effects, reached), callers := map[])
  }

  function Run(s: System, events: seq<Event>): System
    decreases |events|
  {
    if events == [] then s else Run(Next(s, events[0]), events[1..])
  }

  // ---- the invariant -------------------------------------------------------------------------------

  /** A row as some caller read it, against the row now: either nobody has touched it, or it has a higher
      version. What an effect is bound to never changes. */
  predicate Later(read: Effect, now: Effect) {
    && read.rowVersion <= now.rowVersion
    && (read.rowVersion == now.rowVersion ==> read == now)
    && Rank(read.state) <= Rank(now.state)
    && read.decision == now.decision && read.forwardDigest == now.forwardDigest
  }

  /** A stored effect: its version is its rank, it is bound to a stored decision with its digest, and past
      admission the decision is an admit that has been consumed and the shipped payload has that digest. */
  ghost predicate RowOk(s: System, e: Id)
    requires e in s.effects
  {
    var r := s.effects[e];
    && r.rowVersion == Rank(r.state) && !r.state.Proposed?
    && r.decision in s.ledger.tables.decisions && r.decision in s.ledger.declared
    && var d := s.ledger.tables.decisions[r.decision];
       && d.digest == r.forwardDigest
       && (Policy.Consumable(d.verdict) <==> !r.state.NeedsApproval? && !r.state.Rejected?)
       && (d.verdict.NeedsApproval? <==> r.state.NeedsApproval?)
       && e in s.proposed && Policy.DigestOf(s.proposed[e]) == Some(r.forwardDigest)
       && (Rank(r.state) >= 1 ==>
             d.consumedAt.Some? && e in s.shipped && Policy.DigestOf(s.shipped[e]) == Some(r.forwardDigest))
  }

  ghost predicate CallerOk(s: System, c: Caller) {
    match c
    case Proposing(job, req, d) =>
      && d in s.ledger.tables.decisions && d in s.ledger.declared
      && Policy.DigestOf(req.payload) == Some(s.ledger.tables.decisions[d].digest)
      && (forall e :: e in s.effects ==> s.effects[e].decision != d)
    case Guarded(job, stage, tr, e, read) =>
      && e in s.effects && Later(read, s.effects[e]) && Guard(tr, read.state) == None
      && (job.Tracked? ==> Wants(job, stage, tr))
    case Consumed(job, stage, tr, e, read) =>
      && e in s.effects && s.effects[e] == read && read.state.Admitted?
      && tr.MarkDispatchPending? && Policy.DigestOf(tr.payload) == Some(read.forwardDigest)
      && read.decision in s.ledger.tables.decisions && s.ledger.tables.decisions[read.decision].consumedAt.Some?
      && (job.Tracked? ==> Wants(job, stage, tr))
    case Between(job, stage, e) =>
      && job.Tracked? && e in s.effects
      && (stage.ToRun? ==> Rank(s.effects[e].state) >= 2 && e !in s.started)
  }

  /** No decision is held twice: not by two effects, nor by two proposals. No two callers are past the same
      consumption, and no two are about to run the same effect's function. */
  ghost predicate RowsApart(s: System) {
    forall e, e' :: e in s.effects && e' in s.effects && e != e' ==> s.effects[e].decision != s.effects[e'].decision
  }

  ghost predicate CallersApart(s: System) {
    forall c, c' :: c in s.callers && c' in s.callers && c != c' ==> Disjoint(s.callers[c], s.callers[c'])
  }

  predicate Disjoint(a: Caller, b: Caller) {
    && (a.Proposing? && b.Proposing? ==> a.decision != b.decision)
    && (a.Consumed? && b.Consumed? ==> a.effect != b.effect)
    && (a.Between? && b.Between? && a.stage.ToRun? && b.stage.ToRun? ==> a.effect != b.effect)
  }

  ghost predicate StartedOk(s: System) {
    && (forall i :: 0 <= i < |s.started| ==> s.started[i] in s.effects && Rank(s.effects[s.started[i]].state) >= 2)
    && (forall i, j :: 0 <= i < j < |s.started| ==> s.started[i] != s.started[j])
  }

  /** The invariant, apart from the ledger's own. */
  ghost predicate Body(s: System) {
    && (forall e :: e in s.effects ==> RowOk(s, e))
    && (forall c :: c in s.callers ==> CallerOk(s, s.callers[c]))
    && RowsApart(s) && CallersApart(s)
    && StartedOk(s)
  }

  ghost predicate Inv(s: System) {
    L.Inv(s.ledger) && Body(s)
  }

  ghost predicate DecisionsStand(a: L.Ledger, b: L.Ledger) {
    && (forall d :: d in a.tables.decisions ==>
          d in b.tables.decisions && L.SameTerms(a.tables.decisions[d], b.tables.decisions[d]))
    && (forall d :: d in a.declared ==> d in b.declared)
  }

  /** What every step leaves standing: decisions keep their terms, rows only move up, and what an effect was
      proposed with is kept. */
  ghost predicate Onward(s: System, t: System) {
    && DecisionsStand(s.ledger, t.ledger)
    && (forall e :: e in s.effects ==> e in t.effects && Later(s.effects[e], t.effects[e]))
    && (forall e :: e in s.effects && e in s.proposed ==> e in t.proposed && t.proposed[e] == s.proposed[e])
  }

  // ---- frames: what one caller's step cannot disturb ---------------------------------------------------

  lemma RowStands(s: System, t: System, e: Id)
    requires e in s.effects && RowOk(s, e) && Onward(s, t)
    requires t.effects[e] == s.effects[e]
    requires e in s.shipped ==> e in t.shipped && t.shipped[e] == s.shipped[e]
    ensures RowOk(t, e)
  {
  }

  lemma CallerStands(s: System, t: System, c: Caller)
    requires CallerOk(s, c) && Onward(s, t)
    requires c.Proposing? ==> forall e :: e in t.effects ==> e in s.effects || t.effects[e].decision != c.decision
    requires c.Consumed? ==> t.effects[c.effect] == s.effects[c.effect]
    requires c.Between? && c.stage.ToRun? && c.effect !in s.started ==> c.effect !in t.started
    ensures CallerOk(t, c)
  {
  }

  ghost predicate SameButFor(a: map<Id, Caller>, b: map<Id, Caller>, c: Id) {
    forall x :: x != c ==> (x in a <==> x in b) && (x in a && x in b ==> a[x] == b[x])
  }

  /** A step that leaves every row alone and touches no caller but `c`. */
  lemma RowsUntouched(s: System, t: System, c: Id)
    requires Body(s) && DecisionsStand(s.ledger, t.ledger)
    requires t.effects == s.effects && t.proposed == s.proposed && t.shipped == s.shipped
    requires SameButFor(s.callers, t.callers, c)
    requires c in t.callers ==> CallerOk(t, t.callers[c])
    requires c in t.callers ==> forall c' :: c' in s.callers && c' != c ==>
      Disjoint(t.callers[c], s.callers[c']) && Disjoint(s.callers[c'], t.callers[c])
    requires StartedOk(t)
    requires forall c' :: c' in s.callers && c' != c && s.callers[c'].Between? && s.callers[c'].stage.ToRun? ==>
      s.callers[c'].effect !in t.started
    ensures Body(t) && Onward(s, t)
  {
    forall e | e in t.effects ensures RowOk(t, e) {
      RowStands(s, t, e);
    }
    forall c' | c' in t.callers ensures CallerOk(t, t.callers[c']) {
      if c' != c {
        CallerStands(s, t, s.callers[c']);
      }
    }
  }

  /** While nothing is started and no row moves, what was started stays accounted for. */
  lemma NothingStarted(s: System, t: System)
    requires Body(s) && t.effects == s.effects && t.started == s.started
    ensures StartedOk(t)
    ensures forall c :: c in s.callers && s.callers[c].Between? && s.callers[c].stage.ToRun? ==>
      s.callers[c].effect !in t.started
  {
    forall c | c in s.callers && s.callers[c].Between? && s.callers[c].stage.ToRun? ensures s.callers[c].effect !in t.started {
      assert CallerOk(s, s.callers[c]);
    }
  }

  /** In no window that another caller could share. */
  predicate Quiet(c: Caller) {
    c.Guarded? || (c.Between? && !c.stage.ToRun?)
  }

  /** A step that only moves one caller along, or lets it go. */
  lemma CallerMoves(s: System, t: System, c: Id)
    requires Body(s) && t == s.(callers := t.callers) && SameButFor(s.callers, t.callers, c)
    requires c in t.callers ==> Quiet(t.callers[c]) && CallerOk(s, t.callers[c])
    ensures Body(t) && Onward(s, t)
  {
    NothingStarted(s, t);
    RowsUntouched(s, t, c);
  }

  // ---- each kind of step keeps the invariant -------------------------------------------------------------

  /** The policy call a step makes, if it makes one. */
  function CallOf(s: System, ev: Event): Option<L.Call> {
    match ev
    case PolicyCall(call) => Some(call)
    case Decide(_, _, req, now, decision, approval) =>
      if Possible(s, ev) then Some(L.Decide(req.operationId, req.payload, req.reversibility, now, decision, approval)) else None
    case Consume(c, now, stamp) =>
      if Possible(s, ev) && c in Next(s, ev).callers
      then Some(L.Consume(s.callers[c].read.decision, Policy.DigestOf(s.callers[c].tr.payload).value, now, stamp)) else None
    case _ => None
  }

  lemma LedgerFollows(s: System, ev: Event)
    ensures Next(s, ev).ledger == match CallOf(s, ev) case Some(call) => L.Next(s.ledger, call) case None => s.ledger
  {
  }

  /** The ledger moves by whole policy transactions only. */
  lemma LedgerMoves(s: System, ev: Event)
    requires L.Inv(s.ledger)
    ensures var t := Next(s, ev);
      L.Inv(t.ledger) && L.Grows(s.ledger, t.ledger) && DecisionsStand(s.ledger, t.ledger)
  {
    LedgerFollows(s, ev);
    if CallOf(s, ev).Some? {
      L.NextKeepsInv(s.ledger, CallOf(s, ev).value);
    }
  }

  lemma PolicyCallKeepsBody(s: System, call: L.Call)
    requires Body(s) && DecisionsStand(s.ledger, Next(s, PolicyCall(call)).ledger)
    ensures var t := Next(s, PolicyCall(call)); Body(t) && Onward(s, t)
  {
    var t := Next(s, PolicyCall(call));
    NothingStarted(s, t);
    forall e | e in t.effects ensures RowOk(t, e) {
      RowStands(s, t, e);
    }
    forall c | c in t.callers ensures CallerOk(t, t.callers[c]) {
      CallerStands(s, t, s.callers[c]);
    }
  }

  lemma FreshDecisionIsUnowned(s: System, decision: Id)
    requires Body(s) && decision !in s.ledger.tables.decisions
    ensures forall e :: e in s.effects ==> s.effects[e].decision != decision
    ensures forall c :: c in s.callers && s.callers[c].Proposing? ==> s.callers[c].decision != decision
  {
    forall e | e in s.effects ensures s.effects[e].decision != decision {
      assert RowOk(s, e);
    }
    forall c | c in s.callers && s.callers[c].Proposing? ensures s.callers[c].decision != decision {
      assert CallerOk(s, s.callers[c]);
    }
  }

  lemma DeciderGoesOn(s: System, ev: Event)
    requires ev.Decide? && Possible(s, ev)
    requires forall e :: e in s.effects ==> s.effects[e].decision != ev.decision
    ensures var t := Next(s, ev);
      if ev.caller in t.callers
      then t.callers[ev.caller] == Proposing(ev.job, ev.req, ev.decision) && CallerOk(t, t.callers[ev.caller])
      else t.callers == s.callers
    ensures SameButFor(s.callers, Next(s, ev).callers, ev.caller)
    ensures Next(s, ev) == s.(ledger := Next(s, ev).ledger, callers := Next(s, ev).callers)
  {
  }

  /** A proposal whose decision nobody else holds can join. */
  lemma ProposalJoins(s: System, t: System, c: Id)
    requires Body(s) && DecisionsStand(s.ledger, t.ledger)
    requires t == s.(ledger := t.ledger, callers := t.callers) && SameButFor(s.callers, t.callers, c)
    requires c in t.callers ==> t.callers[c].Proposing? && CallerOk(t, t.callers[c])
    requires c in t.callers ==>
      forall x :: x in s.callers && s.callers[x].Proposing? ==> s.callers[x].decision != t.callers[c].decision
    ensures Body(t) && Onward(s, t)
  {
    RowsUntouched(s, t, c);
  }

  lemma DecideKeepsBody(s: System, ev: Event)
    requires Body(s) && ev.Decide? && Possible(s, ev)
    requires DecisionsStand(s.ledger, Next(s, ev).ledger)
    ensures Body(Next(s, ev)) && Onward(s, Next(s, ev))
  {
    FreshDecisionIsUnowned(s, ev.decision);
    DeciderGoesOn(s, ev);
    ProposalJoins(s, Next(s, ev), ev.caller);
  }

  lemma InsertedRow(s: System, c: Id, e: Id)
    requires Possible(s, Insert(c, e)) && CallerOk(s, s.callers[c])
    ensures var t := Next(s, Insert(c, e));
      && t.effects.Keys == s.effects.Keys + {e} && RowOk(t, e)
      && t.effects[e].decision == s.callers[c].decision
      && (forall x :: x in s.effects ==> t.effects[x] == s.effects[x] && t.effects[x].decision != t.effects[e].decision)
      && (c in t.callers ==> CallerOk(t, t.callers[c]) && t.callers[c].Between? && t.callers[c].stage.ToShip?)
  {
  }

  lemma InsertKeepsRow(s: System, c: Id, e: Id, x: Id)
    requires Body(s) && Possible(s, Insert(c, e)) && x in Next(s, Insert(c, e)).effects
    requires Onward(s, Next(s, Insert(c, e)))
    ensures RowOk(Next(s, Insert(c, e)), x)
  {
    InsertedRow(s, c, e);
    if x != e {
      RowStands(s, Next(s, Insert(c, e)), x);
    }
  }

  lemma InsertKeepsCaller(s: System, c: Id, e: Id, x: Id)
    requires Body(s) && Possible(s, Insert(c, e)) && x in Next(s, Insert(c, e)).callers
    requires Onward(s, Next(s, Insert(c, e)))
    ensures CallerOk(Next(s, Insert(c, e)), Next(s, Insert(c, e)).callers[x])
  {
    InsertedRow(s, c, e);
    if x != c {
      assert Disjoint(s.callers[x], s.callers[c]);
      CallerStands(s, Next(s, Insert(c, e)), s.callers[x]);
    }
  }

  lemma InsertKeepsApart(s: System, c: Id, e: Id)
    requires Body(s) && Possible(s, Insert(c, e))
    ensures var t := Next(s, Insert(c, e)); RowsApart(t) && CallersApart(t) && StartedOk(t)
  {
    InsertedRow(s, c, e);
  }

  lemma InsertKeepsBody(s: System, c: Id, e: Id)
    requires Body(s) && Possible(s, Insert(c, e))
    ensures var t := Next(s, Insert(c, e)); Body(t) && Onward(s, t)
  {
    InsertKeepsApart(s, c, e);
    InsertedRow(s, c, e);
    assert Onward(s, Next(s, Insert(c, e)));
    forall x | x in Next(s, Insert(c, e)).effects { InsertKeepsRow(s, c, e, x); }
    forall x | x in Next(s, Insert(c, e)).callers { InsertKeepsCaller(s, c, e, x); }
  }

  lemma ReadKeepsBody(s: System, c: Id, e: Id, tr: Transition)
    requires Body(s) && Possible(s, Read(c, e, tr)) && Next(s, Read(c, e, tr)) != s
    ensures var t := Next(s, Read(c, e, tr)); Body(t) && Onward(s, t)
  {
    CallerMoves(s, Next(s, Read(c, e, tr)), c);
  }

  lemma ReaderGoesOn(s: System, c: Id, tr: Transition)
    requires Possible(s, ReadNext(c, tr)) && CallerOk(s, s.callers[c])
    ensures var t := Next(s, ReadNext(c, tr));
      && t == s.(callers := t.callers) && SameButFor(s.callers, t.callers, c)
      && (c in t.callers ==> Quiet(t.callers[c]) && CallerOk(s, t.callers[c]))
  {
  }

  lemma ReadNextKeepsBody(s: System, c: Id, tr: Transition)
    requires Body(s) && Possible(s, ReadNext(c, tr))
    ensures var t := Next(s, ReadNext(c, tr)); Body(t) && Onward(s, t)
  {
    ReaderGoesOn(s, c, tr);
    CallerMoves(s, Next(s, ReadNext(c, tr)), c);
  }

  lemma ConsumerGoesOn(s: System, c: Id, now: Policy.Time, stamp: Policy.Time)
    requires Possible(s, Consume(c, now, stamp)) && CallerOk(s, s.callers[c]) && RowOk(s, s.callers[c].effect)
    requires c in Next(s, Consume(c, now, stamp)).callers
    ensures var t := Next(s, Consume(c, now, stamp)); CallerOk(t, t.callers[c]) && t.callers[c].Consumed?
    ensures Next(s, Consume(c, now, stamp)).callers[c].effect == s.callers[c].effect
  {
  }

  /** A decision bound to one effect is consumed by one caller at a time: nobody else can be past it. */
  lemma ConsumerIsAlone(s: System, c: Id, now: Policy.Time, stamp: Policy.Time, x: Id)
    requires Possible(s, Consume(c, now, stamp)) && CallerOk(s, s.callers[c])
    requires c in Next(s, Consume(c, now, stamp)).callers && x != c && x in s.callers && CallerOk(s, s.callers[x])
    ensures s.callers[x].Consumed? ==> s.callers[x].effect != s.callers[c].effect
  {
  }

  /** A caller that is past a consumption nobody else is past can go on. */
  lemma ConsumptionJoins(s: System, t: System, c: Id)
    requires Body(s) && DecisionsStand(s.ledger, t.ledger)
    requires t == s.(ledger := t.ledger, callers := t.callers) && SameButFor(s.callers, t.callers, c)
    requires c in t.callers && t.callers[c].Consumed? && CallerOk(t, t.callers[c])
    requires forall x :: x in s.callers && x != c && s.callers[x].Consumed? ==> s.callers[x].effect != t.callers[c].effect
    ensures Body(t) && Onward(s, t)
  {
    NothingStarted(s, t);
    RowsUntouched(s, t, c);
  }

  lemma ConsumeKeepsBody(s: System, c: Id, now: Policy.Time, stamp: Policy.Time)
    requires Body(s) && Possible(s, Consume(c, now, stamp))
    requires DecisionsStand(s.ledger, Next(s, Consume(c, now, stamp)).ledger)
    requires c in Next(s, Consume(c, now, stamp)).callers
    ensures var t := Next(s, Consume(c, now, stamp)); Body(t) && Onward(s, t)
  {
    ConsumerGoesOn(s, c, now, stamp);
    forall x | x in s.callers && x != c { ConsumerIsAlone(s, c, now, stamp, x); }
    ConsumptionJoins(s, Next(s, Consume(c, now, stamp)), c);
  }

  lemma RefusedKeepsBody(s: System, c: Id, now: Policy.Time, stamp: Policy.Time)
    requires Body(s) && Possible(s, Consume(c, now, stamp))
    requires c !in Next(s, Consume(c, now, stamp)).callers
    ensures var t := Next(s, Consume(c, now, stamp)); Body(t) && Onward(s, t)
  {
    CallerMoves(s, Next(s, Consume(c, now, stamp)), c);
  }

  /** The UPDATE lands only on the row that was read, so the guard that was checked still holds. */
  lemma UpdateLands(s: System, c: Id)
    requires Possible(s, Update(c)) && CallerOk(s, s.callers[c]) && RowOk(s, s.callers[c].effect)
    requires s.effects[s.callers[c].effect].rowVersion == s.callers[c].read.rowVersion
    ensures var g := s.callers[c]; var t := Next(s, Update(c));
      && s.effects[g.effect] == g.read && Guard(g.tr, g.read.state) == None
      && t.effects == s.effects[g.effect := Moved(g.tr, g.read)]
      && RowOk(t, g.effect) && Onward(s, t)
  {
  }

  ghost predicate Landing(s: System, c: Id) {
    && Possible(s, Update(c)) && CallerOk(s, s.callers[c]) && RowOk(s, s.callers[c].effect)
    && s.effects[s.callers[c].effect].rowVersion == s.callers[c].read.rowVersion
  }

  lemma UpdateKeepsRow(s: System, c: Id, e: Id)
    requires Landing(s, c) && e in s.effects && RowOk(s, e)
    ensures RowOk(Next(s, Update(c)), e)
  {
    UpdateLands(s, c);
    if e != s.callers[c].effect {
      RowStands(s, Next(s, Update(c)), e);
    }
  }

  lemma UpdateKeepsOther(s: System, c: Id, x: Id)
    requires Landing(s, c) && x != c && x in s.callers && CallerOk(s, s.callers[x])
    requires Disjoint(s.callers[x], s.callers[c])
    ensures CallerOk(Next(s, Update(c)), s.callers[x])
  {
    UpdateLands(s, c);
    CallerStands(s, Next(s, Update(c)), s.callers[x]);
  }

  lemma UpdaterGoesOn(s: System, c: Id)
    requires Landing(s, c) && StartedOk(s) && c in Next(s, Update(c)).callers
    ensures CallerOk(Next(s, Update(c)), Next(s, Update(c)).callers[c])
  {
    UpdateLands(s, c);
  }

  /** Nobody else was about to run the function of an effect that only now becomes dispatched. */
  lemma UpdateKeepsCallersApart(s: System, c: Id, x: Id)
    requires Landing(s, c) && x != c && x in s.callers && CallerOk(s, s.callers[x])
    ensures var t := Next(s, Update(c)); x in t.callers && t.callers[x] == s.callers[x]
    ensures var t := Next(s, Update(c)); c in t.callers ==> Disjoint(t.callers[c], s.callers[x]) && Disjoint(s.callers[x], t.callers[c])
  {
  }

  lemma UpdateKeepsApart(s: System, c: Id)
    requires Landing(s, c) && CallersApart(s) && forall x :: x in s.callers ==> CallerOk(s, s.callers[x])
    ensures CallersApart(Next(s, Update(c)))
  {
    forall x | x in s.callers && x != c { UpdateKeepsCallersApart(s, c, x); }
  }

  lemma UpdateKeepsCallers(s: System, c: Id)
    requires Landing(s, c) && CallersApart(s) && StartedOk(s) && forall x :: x in s.callers ==> CallerOk(s, s.callers[x])
    ensures var t := Next(s, Update(c)); forall x :: x in t.callers ==> CallerOk(t, t.callers[x])
  {
    forall x | x in s.callers && x != c { UpdateKeepsOther(s, c, x); }
    if c in Next(s, Update(c)).callers { UpdaterGoesOn(s, c); }
  }

  lemma UpdateKeepsRowsApart(s: System, c: Id)
    requires Landing(s, c) && RowsApart(s) && StartedOk(s)
    ensures RowsApart(Next(s, Update(c))) && StartedOk(Next(s, Update(c)))
  {
    UpdateLands(s, c);
  }

  lemma UpdateKeepsBody(s: System, c: Id)
    requires Body(s) && Landing(s, c)
    ensures var t := Next(s, Update(c)); Body(t) && Onward(s, t)
  {
    UpdateLands(s, c);
    UpdateKeepsRowsApart(s, c);
    UpdateKeepsApart(s, c);
    UpdateKeepsCallers(s, c);
    forall e | e in s.effects { UpdateKeepsRow(s, c, e); }
  }

  /** The optimistic check: an UPDATE for a version somebody has since moved past changes nothing. */
  lemma UpdateMisses(s: System, c: Id)
    requires Body(s) && Possible(s, Update(c)) && !Landing(s, c)
    ensures var t := Next(s, Update(c)); t.effects == s.effects && Body(t) && Onward(s, t)
  {
    assert CallerOk(s, s.callers[c]);
    CallerMoves(s, Next(s, Update(c)), c);
  }

  lemma FunctionKeepsBody(s: System, ev: Event)
    requires Body(s) && (ev.EndFunction? || ev.SkipObserve? || ev.Vanish?) && Possible(s, ev)
    ensures Body(Next(s, ev)) && Onward(s, Next(s, ev))
  {
    assert CallerOk(s, s.callers[ev.caller]);
    CallerMoves(s, Next(s, ev), ev.caller);
  }

  lemma StartIsRecorded(s: System, c: Id)
    requires StartedOk(s) && Possible(s, StartFunction(c)) && CallerOk(s, s.callers[c])
    ensures var t := Next(s, StartFunction(c)); StartedOk(t) && CallerOk(t, t.callers[c])
  {
  }

  lemma StartKeepsBody(s: System, c: Id)
    requires Body(s) && Possible(s, StartFunction(c))
    ensures var t := Next(s, StartFunction(c)); Body(t) && Onward(s, t)
  {
    StartIsRecorded(s, c);
    RowsUntouched(s, Next(s, StartFunction(c)), c);
  }

  lemma ReconciledRowIsOk(s: System, reached: set<Id>, e: Id)
    requires e in s.effects && RowOk(s, e)
    ensures var t := Next(s, Restart(reached)); e in t.effects && RowOk(t, e) && Later(s.effects[e], t.effects[e])
  {
  }

  lemma StartedStays(s: System, reached: set<Id>)
    requires StartedOk(s) && RowsApart(s)
    ensures StartedOk(Next(s, Restart(reached))) && RowsApart(Next(s, Restart(reached)))
  {
  }

  lemma RestartKeepsBody(s: System, reached: set<Id>)
    requires Body(s)
    ensures Body(Next(s, Restart(reached))) && Onward(s, Next(s, Restart(reached)))
  {
    StartedStays(s, reached);
    forall e | e in s.effects { ReconciledRowIsOk(s, reached, e); }
  }

  lemma NextKeepsBody(s: System, ev: Event)
    requires Body(s) && Possible(s, ev) && DecisionsStand(s.ledger, Next(s, ev).ledger)
    ensures Body(Next(s, ev)) && Onward(s, Next(s, ev))
  {
    match ev
    case PolicyCall(call) => PolicyCallKeepsBody(s, call);
    case Decide(_, _, _, _, _, _) => DecideKeepsBody(s, ev);
    case Insert(c, e) => InsertKeepsBody(s, c, e);
    case Read(c, e, tr) =>
      if Next(s, ev) != s { ReadKeepsBody(s, c, e, tr); }
    case ReadNext(c, tr) => ReadNextKeepsBody(s, c, tr);
    case Consume(c, now, stamp) =>
      if c in Next(s, ev).callers { ConsumeKeepsBody(s, c, now, stamp); } else { RefusedKeepsBody(s, c, now, stamp); }
    case Update(c) =>
      if Landing(s, c) { UpdateKeepsBody(s, c); } else { UpdateMisses(s, c); }
    case StartFunction(c) => StartKeepsBody(s, c);
    case Restart(reached) => RestartKeepsBody(s, reached);
    case _ => FunctionKeepsBody(s, ev);
  }

  /** Every step, by any caller, keeps the invariant and leaves everything else standing. */
  lemma NextKeepsInv(s: System, ev: Event)
    requires Inv(s)
    ensures Inv(Next(s, ev)) && Onward(s, Next(s, ev))
  {
    LedgerMoves(s, ev);
    if Possible(s, ev) {
      NextKeepsBody(s, ev);
    }
  }

  lemma {:induction false} RunKeepsInv(s: System, events: seq<Event>)
    requires Inv(s)
    ensures Inv(Run(s, events))
    decreases |events|
  {
    if events != [] {
      NextKeepsInv(s, events[0]);
      RunKeepsInv(Next(s, events[0]), events[1..]);
    }
  }
}
