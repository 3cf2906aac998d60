/** What canary evidence is worth: when the recorded times say that an eval was made in canary, and when it was. */
module SelfImproveEvidence {
  import opened Wrappers
  import opened SelfImprove
  import opened SelfImproveRuns
  import opened SelfImproveTheorems
  import Serial = SelfImproveEngine

  // ---- while the clock tells Canary apart from what came before it ---------------------------------------

  /** A passing eval that was made while the candidate was in canary. */
  predicate IsCanaryEval(e: Eval, x: Id) {
    e.candidate == x && e.passed && e.during.Canary?
  }

  ghost predicate PassedInCanary(t: Tables, x: Id) {
    exists i :: 0 <= i < |t.evals| && IsCanaryEval(t.evals[i], x)
  }

  /** What counts as evidence for a candidate in canary was made there, and what was ever promoted had some. */
  ghost predicate Honest(t: Tables, x: Id)
    requires x in t.candidates
  {
    var row := t.candidates[x];
    && (row.status.Canary? ==>
          forall i :: 0 <= i < |t.evals| && Counts(t.evals[i], x, row.canaryAt) ==> IsCanaryEval(t.evals[i], x))
    && (OnceLive(row.status) ==> PassedInCanary(t, x))
  }

  /** If the event is x's Canary, it dates x after each eval that x has passed so far. */
  ghost predicate Dated(w: World, ev: Event, x: Id) {
    ev.Canary? && ev.c == x && Possible(w, ev) ==> !HasEvidence(w.tables, x, Some(ev.now))
  }

  ghost predicate AllDated(w: World, events: seq<Event>, x: Id)
    decreases |events|
  {
    events == [] || (Dated(w, events[0], x) && AllDated(Next(w, events[0]), events[1..], x))
  }

  /** Has not been in canary. */
  predicate IsEarly(s: Status) {
    s.Generated? || s.Evaluated?
  }

  /** How one statement can change what is known of a candidate: evals are added under the status the candidate has;
      nothing goes back to where it has not been in canary; into canary is a way only from evaluated; and into what
      was once promoted only from canary with evidence. */
  ghost predicate Forward(t: Tables, u: Tables, x: Id) {
    && t.evals <= u.evals && (x in t.candidates ==> x in u.candidates)
    && (forall i :: |t.evals| <= i < |u.evals| && u.evals[i].candidate == x ==>
          x in t.candidates && u.evals[i].during == t.candidates[x].status)
    && (x in u.candidates ==>
          var s := u.candidates[x].status;
          && (IsEarly(s) ==> if x in t.candidates then IsEarly(t.candidates[x].status) else u.evals == t.evals)
          && (s.Canary? ==> x in t.candidates && (u.candidates[x] == t.candidates[x] || t.candidates[x].status.Evaluated?))
          && (OnceLive(s) ==> x in t.candidates && (OnceLive(t.candidates[x].status) || HasEarned(t, x))))
  }

  ghost predicate HasEarned(t: Tables, x: Id)
    requires x in t.candidates
  {
    t.candidates[x].status.Canary? && HasEvidence(t, x, t.candidates[x].canaryAt)
  }

  lemma SingleStatementIsForward(w: World, ev: Event, x: Id)
    requires Possible(w, ev) && (ev.Generate? || ev.Canary? || ev.Demote? || ev.Reject?)
    ensures Forward(w.tables, Next(w, ev).tables, x)
  {
  }

  lemma EvalIsForward(w: World, t: Id, now: Time, x: Id)
    requires Inv(w) && Possible(w, CommitEval(t, now))
    ensures Forward(w.tables, Next(w, CommitEval(t, now)).tables, x)
  {
    var pc := w.txs[t].pc;
    assert TxOk(w.tables, w.txs[t]);
    assert w.tables.candidates[pc.c].(status := pc.during) == w.tables.candidates[pc.c];
  }

  lemma PromoteIsForward(t: Tables, c: Id, cls: CandidateClass, prev: Option<Id>, now: Time, x: Id)
    requires ReadyToPromote(t, c, cls) && PreviousOk(t, c, cls, prev)
    ensures Forward(t, Promote(t, c, prev, now), x)
  {
  }

  lemma RollbackIsForward(t: Tables, c: Id, cls: CandidateClass, target: Id, now: Time, x: Id)
    requires ReadyToRollBack(t, c, cls, target) && TargetOk(t, c)
    ensures Forward(t, Rollback(t, c, target, now), x)
  {
  }

  lemma CommitIsForward(w: World, t: Id, x: Id)
    requires Inv(w) && Possible(w, Commit(t))
    ensures Forward(w.tables, Next(w, Commit(t)).tables, x)
  {
    var pc := w.txs[t].pc;
    assert TxOk(w.tables, w.txs[t]);
    if pc.WrotePromotion? {
      PromoteWrites(w, t);
      PromoteIsForward(w.tables, pc.c, pc.cls, pc.prev, pc.now, x);
    } else {
      assert TargetOk(w.tables, pc.c);
      RollbackWrites(w, t);
      RollbackIsForward(w.tables, pc.c, pc.cls, pc.target, pc.now, x);
    }
  }

  /** Every other statement leaves the tables alone. */
  lemma OthersWriteNothing(w: World, ev: Event)
    requires !(ev.Generate? || ev.Canary? || ev.Demote? || ev.Reject? || ev.CommitEval? || ev.Commit?)
    ensures Next(w, ev).tables == w.tables
  {
  }

  lemma NextIsForward(w: World, ev: Event, x: Id)
    requires Inv(w)
    ensures Forward(w.tables, Next(w, ev).tables, x)
  {
    if Possible(w, ev) {
      match ev
      case CommitEval(t, now) => EvalIsForward(w, t, now, x);
      case Commit(t) => CommitIsForward(w, t, x);
      case _ =>
        if ev.Generate? || ev.Canary? || ev.Demote? || ev.Reject? {
          SingleStatementIsForward(w, ev, x);
        } else {
          OthersWriteNothing(w, ev);
        }
    }
  }

  /** x is honest if it is there at all. */
  ghost predicate HonestIfThere(t: Tables, x: Id) {
    x in t.candidates ==> Honest(t, x)
  }

  /** The candidate has just entered canary. */
  predicate Enters(t: Tables, u: Tables, x: Id) {
    x in t.candidates && x in u.candidates && t.candidates[x].status.Evaluated? && u.candidates[x].status.Canary?
  }

  lemma HonestStays(t: Tables, u: Tables, x: Id)
    requires Forward(t, u, x) && HonestIfThere(t, x) && !Enters(t, u, x)
    ensures HonestIfThere(u, x)
  {
    if x in u.candidates && OnceLive(u.candidates[x].status) {
      var i :| 0 <= i < |t.evals| && IsCanaryEval(t.evals[i], x);
      assert IsCanaryEval(u.evals[i], x);
    }
  }

  lemma CommitsDoNotEnter(w: World, t: Id, x: Id)
    requires Inv(w) && Possible(w, Commit(t))
    ensures !Enters(w.tables, Next(w, Commit(t)).tables, x)
  {
    assert TxOk(w.tables, w.txs[t]);
    if w.txs[t].pc.WrotePromotion? {
      PromoteWrites(w, t);
    } else {
      RollbackWrites(w, t);
    }
  }

  lemma EvalsDoNotEnter(w: World, t: Id, now: Time, x: Id)
    requires Inv(w) && Possible(w, CommitEval(t, now))
    ensures !Enters(w.tables, Next(w, CommitEval(t, now)).tables, x)
  {
    assert TxOk(w.tables, w.txs[t]);
  }

  lemma OnlyCanaryEnters(w: World, ev: Event, x: Id)
    requires Inv(w) && !(ev.Canary? && ev.c == x && Possible(w, ev))
    ensures !Enters(w.tables, Next(w, ev).tables, x)
  {
    if Possible(w, ev) {
      match ev
      case Commit(t) => CommitsDoNotEnter(w, t, x);
      case CommitEval(t, now) => EvalsDoNotEnter(w, t, now, x);
      case _ =>
        if !(ev.Generate? || ev.Canary? || ev.Demote? || ev.Reject?) {
          OthersWriteNothing(w, ev);
        }
    }
  }

  lemma CanaryStaysHonest(w: World, x: Id, now: Time)
    requires Possible(w, Event.Canary(x, now)) && !HasEvidence(w.tables, x, Some(now))
    ensures Honest(Next(w, Event.Canary(x, now)).tables, x)
  {
    assert forall i :: 0 <= i < |w.tables.evals| ==> !Counts(w.tables.evals[i], x, Some(now));
  }

  lemma NextStaysHonest(w: World, ev: Event, x: Id)
    requires Inv(w) && HonestIfThere(w.tables, x) && Dated(w, ev, x)
    ensures HonestIfThere(Next(w, ev).tables, x)
  {
    if ev.Canary? && ev.c == x && Possible(w, ev) {
      CanaryStaysHonest(w, x, ev.now);
    } else {
      NextIsForward(w, ev, x);
      OnlyCanaryEnters(w, ev, x);
      HonestStays(w.tables, Next(w, ev).tables, x);
    }
  }

  lemma {:induction false} RunStaysHonest(w: World, events: seq<Event>, x: Id)
    requires Inv(w) && HonestIfThere(w.tables, x) && AllDated(w, events, x)
    ensures HonestIfThere(Run(w, events).tables, x)
    decreases |events|
  {
    if events != [] {
      NextStaysHonest(w, events[0], x);
      NextKeepsInv(w, events[0]);
      RunStaysHonest(Next(w, events[0]), events[1..], x);
    }
  }

  /** In every interleaving in which Canary dates the candidate after each eval it has passed so far, a candidate that is
      or was promoted, a restored one included, passed an eval that was made while it was in canary. */
  lemma EvidenceIsFromCanary(hashes: map<CandidateClass, int>, events: seq<Event>, x: Id)
    requires AllDated(Start(hashes), events, x) && x in Run(Start(hashes), events).tables.candidates
    requires OnceLive(Run(Start(hashes), events).tables.candidates[x].status)
    ensures PassedInCanary(Run(Start(hashes), events).tables, x)
  {
    RunStaysHonest(Start(hashes), events, x);
    assert Honest(Run(Start(hashes), events).tables, x);
  }

  // ---- ... and when it does not --------------------------------------------------------------------------

  /** A candidate that has not been in canary yet has no eval from there. */
  ghost predicate NotYetThere(t: Tables, x: Id) {
    x in t.candidates && IsEarly(t.candidates[x].status) ==>
      forall i :: 0 <= i < |t.evals| && t.evals[i].candidate == x ==> !t.evals[i].during.Canary?
  }

  lemma {:induction false} RunStaysNotYetThere(w: World, events: seq<Event>, x: Id)
    requires Inv(w) && NotYetThere(w.tables, x)
    ensures NotYetThere(Run(w, events).tables, x)
    decreases |events|
  {
    if events != [] {
      NextIsForward(w, events[0], x);
      NextKeepsInv(w, events[0]);
      assert NotYetThere(Next(w, events[0]).tables, x);
      RunStaysNotYetThere(Next(w, events[0]), events[1..], x);
    }
  }

  /** Once in canary a candidate is never dated by Canary again. */
  lemma {:induction false} DatedForEver(w: World, events: seq<Event>, x: Id)
    requires Inv(w) && x in w.tables.candidates && !IsEarly(w.tables.candidates[x].status)
    ensures AllDated(w, events, x)
    decreases |events|
  {
    if events != [] {
      NextIsForward(w, events[0], x);
      NextKeepsInv(w, events[0]);
      DatedForEver(Next(w, events[0]), events[1..], x);
    }
  }

  /** After this run the candidate is promoted and has no passing eval from canary. */
  ghost predicate PromotedUnearned(w: World, events: seq<Event>, x: Id) {
    var t := Run(w, events).tables;
    x in t.candidates && t.candidates[x].status.Promoted? && !PassedInCanary(t, x)
  }

  /** All evals that x has passed are dated before: then no run promotes it unearned. */
  lemma NeverUnearned(w: World, x: Id, now: Time, events: seq<Event>)
    requires Inv(w) && Possible(w, Event.Canary(x, now)) && !HasEvidence(w.tables, x, Some(now))
    ensures !PromotedUnearned(Next(w, Event.Canary(x, now)), events, x)
  {
    var v := Next(w, Event.Canary(x, now));
    NextKeepsInv(w, Event.Canary(x, now));
    CanaryStaysHonest(w, x, now);
    DatedForEver(v, events, x);
    RunStaysHonest(v, events, x);
  }

  // ---- runs that get there -----------------------------------------------------------------------------

  /** No transaction is running. */
  predicate Quiet(w: World) {
    w.txs == map[] && w.classLocks == map[] && w.rowLocks == map[]
  }

  /** A candidate is generated, passes an eval, and enters canary, all in one millisecond. */
  function ToCanary(c: Id, cls: CandidateClass, t: Id, at: Time): seq<Event> {
    [Generate(c, cls, "ref", ""), BeginEval(t, c, true), CommitEval(t, at), Event.Canary(c, at)]
  }

  /** A Promote up to where it has read who is promoted ... */
  function ToPrevious(c: Id, t: Id, prev: Option<Id>): seq<Event> {
    [Begin(t, Promoting, c), LockClass(t), LockRow(t), CheckEvidence(t, true), ReadPrevious(t, prev)]
  }

  /** ... and from there on. */
  function ToCommit(t: Id, now: Time): seq<Event> {
    [DemotePrevious(t, now), WriteSelf(t), Commit(t)]
  }

  lemma {:induction false} RunOfAppend(w: World, a: seq<Event>, b: seq<Event>)
    ensures Run(w, a + b) == Run(Run(w, a), b)
    decreases |a|
  {
    if a == [] {
      assert a + b == b;
    } else {
      assert (a + b)[1..] == a[1..] + b;
      RunOfAppend(Next(w, a[0]), a[1..], b);
    }
  }

  lemma RunOfFour(w: World, e: seq<Event>)
    requires |e| == 4
    ensures Run(w, e) == Next(Next(Next(Next(w, e[0]), e[1]), e[2]), e[3])
  {
    assert e[1..][1..] == e[2..] && e[2..][1..] == e[3..] && e[3..][1..] == [];
    var w1 := Next(w, e[0]);
    var w2 := Next(w1, e[1]);
    var w3 := Next(w2, e[2]);
    assert Run(w, e) == Run(w1, e[1..]) == Run(w2, e[2..]) == Run(w3, e[3..]) == Run(Next(w3, e[3]), []);
  }

  function InCanary(cls: CandidateClass, at: Time): Candidate {
    AsCanary(Fresh(cls, "ref", "").(status := Evaluated), at)
  }

  lemma Evaluates(w: World, c: Id, t: Id, at: Time)
    requires Quiet(w) && c in w.tables.candidates && w.tables.candidates[c].status.Generated?
    ensures Next(Next(w, BeginEval(t, c, true)), CommitEval(t, at)) ==
      w.(tables := Tables(w.tables.candidates[c := w.tables.candidates[c].(status := Evaluated)],
                          w.tables.evals + [Eval(c, true, at, Generated)]))
  {
    assert Next(w, BeginEval(t, c, true)) ==
           w.(txs := map[t := Tx(Evaluating(c, Generated, true), map[])], rowLocks := map[c := t]);
  }

  lemma Generates(w: World, c: Id, cls: CandidateClass)
    requires c !in w.tables.candidates && !cls.Unrecognised?
    ensures Next(w, Generate(c, cls, "ref", "")) == w.(tables := Update(w.tables, c, Fresh(cls, "ref", "")))
  {
  }

  lemma EntersCanary(w: World, c: Id, at: Time)
    requires Quiet(w) && c in w.tables.candidates && w.tables.candidates[c].status.Evaluated?
    ensures Next(w, Event.Canary(c, at)) == w.(tables := Update(w.tables, c, AsCanary(w.tables.candidates[c], at)))
  {
  }

  lemma CanaryIsReached(w: World, c: Id, cls: CandidateClass, t: Id, at: Time)
    requires Quiet(w) && c !in w.tables.candidates && !cls.Unrecognised?
    ensures var v := Run(w, ToCanary(c, cls, t, at));
      && Quiet(v) && v.hashes == w.hashes
      && v.tables.candidates == w.tables.candidates[c := InCanary(cls, at)]
      && v.tables.evals == w.tables.evals + [Eval(c, true, at, Generated)]
  {
    RunOfFour(w, ToCanary(c, cls, t, at));
    Generates(w, c, cls);
    var w1 := w.(tables := Update(w.tables, c, Fresh(cls, "ref", "")));
    Evaluates(w1, c, t, at);
    EntersCanary(Next(Next(w1, BeginEval(t, c, true)), CommitEval(t, at)), c, at);
  }

  /** A Promote that holds its class. */
  function HoldingClass(w: World, c: Id, cls: CandidateClass, t: Id): World {
    w.(txs := map[t := Tx(Holding(Promoting, c, cls), map[])], classLocks := map[Key(w.hashes, cls) := t])
  }

  /** A Promote that holds its class and its own row, at this point. */
  function HoldingBoth(w: World, c: Id, cls: CandidateClass, t: Id, tx: Tx): World {
    w.(txs := map[t := tx], classLocks := map[Key(w.hashes, cls) := t], rowLocks := map[c := t])
  }

  lemma TakesClass(w: World, c: Id, cls: CandidateClass, t: Id)
    requires Quiet(w) && InClass(w.tables, c, cls)
    ensures Next(Next(w, Begin(t, Promoting, c)), LockClass(t)) == HoldingClass(w, c, cls, t)
  {
    assert Next(w, Begin(t, Promoting, c)) == w.(txs := map[t := Tx(Begun(Promoting, c, cls), map[])]);
  }

  lemma TakesRow(w: World, c: Id, cls: CandidateClass, t: Id)
    requires Quiet(w) && InClass(w.tables, c, cls) && w.tables.candidates[c].status.Canary?
    ensures Next(HoldingClass(w, c, cls, t), LockRow(t)) ==
            HoldingBoth(w, c, cls, t, Tx(SawCanary(c, cls, w.tables.candidates[c].canaryAt), map[]))
  {
  }

  lemma SeesEvidence(w: World, c: Id, cls: CandidateClass, t: Id, since: Option<Time>)
    requires HasEvidence(w.tables, c, since)
    ensures Next(HoldingBoth(w, c, cls, t, Tx(SawCanary(c, cls, since), map[])), CheckEvidence(t, true)) ==
            HoldingBoth(w, c, cls, t, Tx(SawEvidence(c, cls), map[]))
  {
  }

  lemma SeesPrevious(w: World, c: Id, cls: CandidateClass, t: Id, prev: Option<Id>)
    requires IsPrevious(w.tables, c, cls, prev)
    ensures Next(HoldingBoth(w, c, cls, t, Tx(SawEvidence(c, cls), map[])), ReadPrevious(t, prev)) ==
            HoldingBoth(w, c, cls, t, Tx(SawPrevious(c, cls, prev), map[]))
  {
  }

  lemma PreviousIsReached(w: World, c: Id, cls: CandidateClass, t: Id, prev: Option<Id>)
    requires Quiet(w) && InClass(w.tables, c, cls) && w.tables.candidates[c].status.Canary?
    requires HasEvidence(w.tables, c, w.tables.candidates[c].canaryAt) && IsPrevious(w.tables, c, cls, prev)
    ensures Run(w, ToPrevious(c, t, prev)) == HoldingBoth(w, c, cls, t, Tx(SawPrevious(c, cls, prev), map[]))
  {
    var e := ToPrevious(c, t, prev);
    TakesClass(w, c, cls, t);
    TakesRow(w, c, cls, t);
    SeesEvidence(w, c, cls, t, w.tables.candidates[c].canaryAt);
    SeesPrevious(w, c, cls, t, prev);
    RunOfFour(Next(w, e[0]), e[1..]);
    assert Run(w, e) == Run(Next(w, e[0]), e[1..]);
  }

  lemma DemotesNobody(w: World, c: Id, cls: CandidateClass, t: Id, now: Time)
    ensures Next(HoldingBoth(w, c, cls, t, Tx(SawPrevious(c, cls, None), map[])), DemotePrevious(t, now)) ==
            HoldingBoth(w, c, cls, t, Tx(DemotedPrevious(c, cls, None, now), map[]))
  {
  }

  lemma WritesPromotion(w: World, c: Id, cls: CandidateClass, t: Id, now: Time)
    requires c in w.tables.candidates
    ensures Next(HoldingBoth(w, c, cls, t, Tx(DemotedPrevious(c, cls, None, now), map[])), WriteSelf(t)) ==
            HoldingBoth(w, c, cls, t, Tx(WrotePromotion(c, cls, None, now),
                                         map[c := AsPromoted(w.tables.candidates[c], now, None)]))
  {
  }

  lemma CommitsPromotion(w: World, c: Id, cls: CandidateClass, t: Id, now: Time, row: Candidate)
    requires Quiet(w)
    ensures Next(HoldingBoth(w, c, cls, t, Tx(WrotePromotion(c, cls, None, now), map[c := row])), Commit(t)) ==
            w.(tables := Update(w.tables, c, row))
  {
    assert w.tables.candidates + map[c := row] == w.tables.candidates[c := row];
  }

  lemma PromotionIsReached(w: World, c: Id, cls: CandidateClass, t: Id, now: Time)
    requires Quiet(w) && c in w.tables.candidates
    ensures Run(HoldingBoth(w, c, cls, t, Tx(SawPrevious(c, cls, None), map[])), ToCommit(t, now)) ==
            w.(tables := Update(w.tables, c, AsPromoted(w.tables.candidates[c], now, None)))
  {
    var e := ToCommit(t, now);
    var before := HoldingBoth(w, c, cls, t, Tx(SawPrevious(c, cls, None), map[]));
    assert e[1..][1..] == e[2..] && e[2..][1..] == [];
    DemotesNobody(w, c, cls, t, now);
    WritesPromotion(w, c, cls, t, now);
    CommitsPromotion(w, c, cls, t, now, AsPromoted(w.tables.candidates[c], now, None));
    var w1 := Next(before, e[0]);
    var w2 := Next(w1, e[1]);
    assert Run(before, e) == Run(w1, e[1..]) == Run(w2, e[2..]) == Run(Next(w2, e[2]), []);
  }

  /** A candidate promoted from nothing, with everything in one millisecond. */
  function ToPromotion(c: Id, cls: CandidateClass, t: Id, at: Time): seq<Event> {
    ToCanary(c, cls, t, at) + (ToPrevious(c, t, None) + ToCommit(t, at))
  }

  lemma PromotionFrom(w: World, c: Id, cls: CandidateClass, t: Id, at: Time)
    requires Quiet(w) && InClass(w.tables, c, cls) && w.tables.candidates[c].status.Canary?
    requires HasEvidence(w.tables, c, w.tables.candidates[c].canaryAt) && IsPrevious(w.tables, c, cls, None)
    ensures Run(w, ToPrevious(c, t, None) + ToCommit(t, at)) ==
            w.(tables := Update(w.tables, c, AsPromoted(w.tables.candidates[c], at, None)))
  {
    PreviousIsReached(w, c, cls, t, None);
    PromotionIsReached(w, c, cls, t, at);
    RunOfAppend(w, ToPrevious(c, t, None), ToCommit(t, at));
  }

  lemma FirstPromotion(hashes: map<CandidateClass, int>, c: Id, cls: CandidateClass, t: Id, at: Time)
    requires !cls.Unrecognised?
    ensures var v := Run(Start(hashes), ToPromotion(c, cls, t, at));
      && Quiet(v) && v.hashes == hashes
      && v.tables == Tables(map[c := AsPromoted(InCanary(cls, at), at, None)], [Eval(c, true, at, Generated)])
  {
    var w := Start(hashes);
    CanaryIsReached(w, c, cls, t, at);
    var w1 := Run(w, ToCanary(c, cls, t, at));
    assert w1.tables.candidates == map[c := InCanary(cls, at)];
    assert Counts(w1.tables.evals[0], c, Some(at));
    PromotionFrom(w1, c, cls, t, at);
    RunOfAppend(w, ToCanary(c, cls, t, at), ToPrevious(c, t, None) + ToCommit(t, at));
  }

  /** Without that condition it fails: a run in which a candidate is promoted that never passed an eval in canary. */
  lemma OneMillisecondIsEnough(hashes: map<CandidateClass, int>, c: Id, cls: CandidateClass, t: Id, at: Time)
    requires !cls.Unrecognised?
    ensures var v := Run(Start(hashes), ToPromotion(c, cls, t, at)).tables;
      c in v.candidates && v.candidates[c].status.Promoted? && !PassedInCanary(v, c)
  {
    FirstPromotion(hashes, c, cls, t, at);
  }

  /** And a run after which a Promote of `c` is about to demote `p`, so that a Demote can slip in. */
  lemma DemoteCanReallySlipIn(hashes: map<CandidateClass, int>, p: Id, c: Id, cls: CandidateClass, t: Id, at: Time)
    requires !cls.Unrecognised? && p != c
    ensures var w := Run(Run(Run(Start(hashes), ToPromotion(p, cls, t, at)), ToCanary(c, cls, t, at)), ToPrevious(c, t, Some(p)));
      AboutToDemote(w, t, p) && p in w.tables.candidates && w.tables.candidates[p].status.Promoted?
  {
    var w0 := Run(Start(hashes), ToPromotion(p, cls, t, at));
    FirstPromotion(hashes, p, cls, t, at);
    CanaryIsReached(w0, c, cls, t, at);
    var w1 := Run(w0, ToCanary(c, cls, t, at));
    assert Counts(w1.tables.evals[1], c, Some(at));
    assert IsPromoted(w1.tables, p, cls);
    PreviousIsReached(w1, c, cls, t, Some(p));
    RunKeepsInv(Start(hashes), ToPromotion(p, cls, t, at));
    RunKeepsInv(w0, ToCanary(c, cls, t, at));
    RunKeepsInv(w1, ToPrevious(c, t, Some(p)));
  }

  // ---- exactly when evidence from before canary promotes -------------------------------------------------

  /** Everybody who is in the middle of something fails. */
  lemma {:induction false} AllCanAbort(w: World) returns (events: seq<Event>)
    requires Inv(w)
    ensures Inv(Run(w, events)) && Quiet(Run(w, events)) && Run(w, events).tables == w.tables
    decreases w.txs
  {
    if w.txs == map[] {
      events := [];
      assert forall r :: r !in w.rowLocks;
      assert forall k :: k !in w.classLocks;
      assert w.rowLocks == map[] && w.classLocks == map[];
    } else {
      var t :| t in w.txs;
      NextKeepsInv(w, Abort(t));
      assert Next(w, Abort(t)).txs == w.txs - {t};
      var more := AllCanAbort(Next(w, Abort(t)));
      events := [Abort(t)] + more;
      assert events[1..] == more;
    }
  }

  /** And whoever is promoted in the class, if anybody, is demoted. */
  lemma ClassCanBeEmptied(w: World, c: Id, cls: CandidateClass) returns (events: seq<Event>)
    requires Inv(w) && Quiet(w) && InClass(w.tables, c, cls) && w.tables.candidates[c].status.Canary?
    ensures var v := Run(w, events);
      && Quiet(v) && v.tables.evals == w.tables.evals && IsPrevious(v.tables, c, cls, None)
      && c in v.tables.candidates && v.tables.candidates[c] == w.tables.candidates[c]
  {
    if p :| IsPromoted(w.tables, p, cls) {
      events := [Demote(p, 0)];
      assert events[1..] == [];
      assert Run(w, events) == Run(Next(w, Demote(p, 0)), []) == Next(w, Demote(p, 0));
      forall x: Id | IsPromoted(Next(w, Demote(p, 0)).tables, x, cls) ensures false {
        assert IsPromoted(w.tables, x, cls);
      }
    } else {
      events := [];
    }
  }

  /** Evidence promotes, whoever made it and whatever else is going on. */
  lemma EvidenceCanPromote(w: World, c: Id) returns (events: seq<Event>)
    requires Inv(w) && c in w.tables.candidates && HasEarned(w.tables, c)
    ensures var t := Run(w, events).tables;
      t.evals == w.tables.evals && c in t.candidates && t.candidates[c].status.Promoted?
  {
    var cls := w.tables.candidates[c].cls;
    var aborts := AllCanAbort(w);
    var w1 := Run(w, aborts);
    var demotes := ClassCanBeEmptied(w1, c, cls);
    var w2 := Run(w1, demotes);
    var rest := ToPrevious(c, 0, None) + ToCommit(0, 0);
    PromotionFrom(w2, c, cls, 0, 0);
    RunOfAppend(w1, demotes, rest);
    RunOfAppend(w, aborts, demotes + rest);
    events := aborts + (demotes + rest);
  }

  /** In any reachable state, once Canary has dated the candidate at `now`: some run from there promotes it without an
      eval passed in canary if and only if an eval it passed before is dated at `now` or later. */
  lemma UnearnedIffAnEarlierPassIsDatedLater(hashes: map<CandidateClass, int>, events: seq<Event>, x: Id, now: Time)
    requires Possible(Run(Start(hashes), events), Event.Canary(x, now))
    ensures var w := Run(Start(hashes), events);
      (exists more :: PromotedUnearned(Next(w, Event.Canary(x, now)), more, x)) <==> HasEvidence(w.tables, x, Some(now))
  {
    var w := Run(Start(hashes), events);
    var v := Next(w, Event.Canary(x, now));
    RunKeepsInv(Start(hashes), events);
    NextKeepsInv(w, Event.Canary(x, now));
    if HasEvidence(w.tables, x, Some(now)) {
      RunStaysNotYetThere(Start(hashes), events, x);
      EvidenceLasts(w.tables, v.tables, x, Some(now));
      var more := EvidenceCanPromote(v, x);
      assert !PassedInCanary(Run(v, more).tables, x);
      assert PromotedUnearned(v, more, x);
    } else {
      forall more ensures !PromotedUnearned(v, more, x) {
        NeverUnearned(w, x, now, more);
      }
    }
  }

  // ---- run alone, the statements are the call ------------------------------------------------------------

  lemma RunOfThree(w: World, e: seq<Event>)
    requires |e| == 3
    ensures Run(w, e) == Next(Next(Next(w, e[0]), e[1]), e[2])
  {
    assert e[1..][1..] == e[2..] && e[2..][1..] == [];
    var w1 := Next(w, e[0]);
    var w2 := Next(w1, e[1]);
    assert Run(w, e) == Run(w1, e[1..]) == Run(w2, e[2..]) == Run(Next(w2, e[2]), []);
  }

  /** A Rollback up to where it has locked and read its candidate ... */
  function ToLockedRow(c: Id, t: Id): seq<Event> {
    [Begin(t, RollingBack, c), LockClass(t), LockRow(t)]
  }

  /** ... and from there on. */
  function ToRestored(t: Id, now: Time): seq<Event> {
    [CheckNonePromoted(t, true), MarkRolledBack(t, now), RestoreTarget(t), Commit(t)]
  }

  /** A Rollback that holds its class and these rows. */
  function HoldingRows(w: World, cls: CandidateClass, t: Id, tx: Tx, rows: map<Id, Id>): World {
    w.(txs := map[t := tx], classLocks := map[Key(w.hashes, cls) := t], rowLocks := rows)
  }

  lemma TakesItsClass(w: World, c: Id, cls: CandidateClass, t: Id)
    requires Quiet(w) && InClass(w.tables, c, cls)
    ensures Next(Next(w, Begin(t, RollingBack, c)), LockClass(t)) ==
            HoldingRows(w, cls, t, Tx(Holding(RollingBack, c, cls), map[]), map[])
  {
    assert Next(w, Begin(t, RollingBack, c)) == w.(txs := map[t := Tx(Begun(RollingBack, c, cls), map[])]);
  }

  lemma LocksItself(w: World, c: Id, cls: CandidateClass, t: Id, target: Id)
    requires InClass(w.tables, c, cls) && w.tables.candidates[c].status == Demoted
    requires w.tables.candidates[c].rollbackTarget == Some(target)
    ensures Next(HoldingRows(w, cls, t, Tx(Holding(RollingBack, c, cls), map[]), map[]), LockRow(t)) ==
            HoldingRows(w, cls, t, Tx(SawDemoted(c, cls, target), map[]), map[c := t])
  {
  }

  lemma LocksItsRow(w: World, c: Id, cls: CandidateClass, t: Id, target: Id)
    requires Quiet(w) && InClass(w.tables, c, cls) && w.tables.candidates[c].status == Demoted
    requires w.tables.candidates[c].rollbackTarget == Some(target)
    ensures Run(w, ToLockedRow(c, t)) == HoldingRows(w, cls, t, Tx(SawDemoted(c, cls, target), map[]), map[c := t])
  {
    RunOfThree(w, ToLockedRow(c, t));
    TakesItsClass(w, c, cls, t);
    LocksItself(w, c, cls, t, target);
  }

  lemma SeesNonePromoted(w: World, c: Id, cls: CandidateClass, t: Id, target: Id)
    requires NonePromoted(w.tables, cls)
    ensures Next(HoldingRows(w, cls, t, Tx(SawDemoted(c, cls, target), map[]), map[c := t]), CheckNonePromoted(t, true)) ==
            HoldingRows(w, cls, t, Tx(SawNonePromoted(c, cls, target), map[]), map[c := t])
  {
  }

  lemma MarksItself(w: World, c: Id, cls: CandidateClass, t: Id, target: Id, now: Time)
    requires c in w.tables.candidates
    ensures Next(HoldingRows(w, cls, t, Tx(SawNonePromoted(c, cls, target), map[]), map[c := t]), MarkRolledBack(t, now)) ==
            HoldingRows(w, cls, t, Tx(MarkedRolledBack(c, cls, target, now),
                                      map[c := AsRolledBack(w.tables.candidates[c], now)]), map[c := t])
  {
  }

  lemma RestoresItsTarget(w: World, c: Id, cls: CandidateClass, t: Id, target: Id, now: Time, row: Candidate)
    requires target in w.tables.candidates && target != c
    ensures Next(HoldingRows(w, cls, t, Tx(MarkedRolledBack(c, cls, target, now), map[c := row]), map[c := t]),
                 RestoreTarget(t)) ==
            HoldingRows(w, cls, t, Tx(WroteRestore(c, cls, target, now),
                                      map[c := row, target := AsPromoted(w.tables.candidates[target], now, Some(c))]),
                        map[c := t, target := t])
  {
    var restored := AsPromoted(w.tables.candidates[target], now, Some(c));
    assert map[c := row][target := restored] == map[c := row, target := restored];
    assert map[c := t][target := t] == map[c := t, target := t];
  }

  lemma CommitsRestore(w: World, c: Id, cls: CandidateClass, t: Id, target: Id, now: Time, row: Candidate, restored: Candidate)
    requires Quiet(w) && c != target
    ensures Next(HoldingRows(w, cls, t, Tx(WroteRestore(c, cls, target, now), map[c := row, target := restored]),
                             map[c := t, target := t]), Commit(t)) ==
            w.(tables := w.tables.(candidates := w.tables.candidates[c := row][target := restored]))
  {
    assert w.tables.candidates + map[c := row, target := restored] == w.tables.candidates[c := row][target := restored];
  }

  lemma RestoresFrom(w: World, c: Id, cls: CandidateClass, t: Id, target: Id, now: Time)
    requires Quiet(w) && c in w.tables.candidates && target in w.tables.candidates && c != target && NonePromoted(w.tables, cls)
    ensures Run(HoldingRows(w, cls, t, Tx(SawDemoted(c, cls, target), map[]), map[c := t]), ToRestored(t, now)) ==
            w.(tables := Rollback(w.tables, c, target, now))
  {
    var row := AsRolledBack(w.tables.candidates[c], now);
    RunOfFour(HoldingRows(w, cls, t, Tx(SawDemoted(c, cls, target), map[]), map[c := t]), ToRestored(t, now));
    SeesNonePromoted(w, c, cls, t, target);
    MarksItself(w, c, cls, t, target, now);
    RestoresItsTarget(w, c, cls, t, target, now, row);
    CommitsRestore(w, c, cls, t, target, now, row, AsPromoted(w.tables.candidates[target], now, Some(c)));
  }

  /** The statements of a Rollback that may go ahead, run by themselves, do what the call does, and leave no lock behind. */
  lemma RollbackAloneIsTheCall(w: World, c: Id, t: Id, now: Time)
    requires Inv(w) && Quiet(w) && Serial.RollbackCall(w.tables, c, now).1.Success?
    ensures Run(w, ToLockedRow(c, t) + ToRestored(t, now)) == w.(tables := Serial.RollbackCall(w.tables, c, now).0)
  {
    var cls := w.tables.candidates[c].cls;
    var target := w.tables.candidates[c].rollbackTarget.value;
    assert TargetOk(w.tables, c);
    LocksItsRow(w, c, cls, t, target);
    RestoresFrom(w, c, cls, t, target, now);
    RunOfAppend(w, ToLockedRow(c, t), ToRestored(t, now));
  }

  lemma WritesBoth(w: World, c: Id, cls: CandidateClass, t: Id, p: Id, now: Time)
    requires Quiet(w) && c in w.tables.candidates && p in w.tables.candidates && p != c
    ensures Run(HoldingBoth(w, c, cls, t, Tx(SawPrevious(c, cls, Some(p)), map[])), ToCommit(t, now)) ==
            w.(tables := Promote(w.tables, c, Some(p), now))
  {
    var before := HoldingBoth(w, c, cls, t, Tx(SawPrevious(c, cls, Some(p)), map[]));
    RunOfThree(before, ToCommit(t, now));
    DemotesTheHolder(w, c, cls, t, p, now);
    PromotesOverTheHolder(w, c, cls, t, p, now, AsDemoted(w.tables.candidates[p], now));
    CommitsBoth(w, c, cls, t, p, now, AsDemoted(w.tables.candidates[p], now), AsPromoted(w.tables.candidates[c], now, Some(p)));
  }

  lemma DemotesTheHolder(w: World, c: Id, cls: CandidateClass, t: Id, p: Id, now: Time)
    requires p in w.tables.candidates && p != c
    ensures Next(HoldingBoth(w, c, cls, t, Tx(SawPrevious(c, cls, Some(p)), map[])), DemotePrevious(t, now)) ==
            HoldingRows(w, cls, t, Tx(DemotedPrevious(c, cls, Some(p), now), map[p := AsDemoted(w.tables.candidates[p], now)]),
                        map[c := t, p := t])
  {
  }

  lemma PromotesOverTheHolder(w: World, c: Id, cls: CandidateClass, t: Id, p: Id, now: Time, demoted: Candidate)
    requires c in w.tables.candidates && p != c
    ensures Next(HoldingRows(w, cls, t, Tx(DemotedPrevious(c, cls, Some(p), now), map[p := demoted]), map[c := t, p := t]),
                 WriteSelf(t)) ==
            HoldingRows(w, cls, t, Tx(WrotePromotion(c, cls, Some(p), now),
                                      map[p := demoted, c := AsPromoted(w.tables.candidates[c], now, Some(p))]),
                        map[c := t, p := t])
  {
  }

  lemma CommitsBoth(w: World, c: Id, cls: CandidateClass, t: Id, p: Id, now: Time, demoted: Candidate, promoted: Candidate)
    requires Quiet(w) && c != p
    ensures Next(HoldingRows(w, cls, t, Tx(WrotePromotion(c, cls, Some(p), now), map[p := demoted, c := promoted]),
                             map[c := t, p := t]), Commit(t)) ==
            w.(tables := w.tables.(candidates := w.tables.candidates[p := demoted][c := promoted]))
  {
    assert w.tables.candidates + map[p := demoted, c := promoted] == w.tables.candidates[p := demoted][c := promoted];
  }

  /** So do those of a Promote, with or without somebody to replace. */
  lemma PromoteAloneIsTheCall(w: World, c: Id, t: Id, now: Time)
    requires Inv(w) && Quiet(w) && Serial.PromoteCall(w.tables, c, now).1.Success?
    ensures var prev := Serial.PreviousOf(w.tables, c);
      Run(w, ToPrevious(c, t, prev) + ToCommit(t, now)) == w.(tables := Serial.PromoteCall(w.tables, c, now).0)
  {
    var cls := w.tables.candidates[c].cls;
    var prev := Serial.PreviousOf(w.tables, c);
    if prev.None? {
      forall x: Id | IsPromoted(w.tables, x, cls) ensures x == c {
      }
      PromotionFrom(w, c, cls, t, now);
    } else {
      PreviousIsReached(w, c, cls, t, prev);
      WritesBoth(w, c, cls, t, prev.value, now);
      RunOfAppend(w, ToPrevious(c, t, prev), ToCommit(t, now));
    }
  }

  // ---- a failing eval that stops nothing -----------------------------------------------------------------

  /** A candidate that is evaluated can fail an eval, and still enter canary, pass one there, and be promoted, with the
      failure on record: only a failure while it is generated or in canary would have stopped it. */
  lemma FailingWhileEvaluatedStopsNothing(t: Tables, c: Id, failing: seq<bool>, passing: seq<bool>,
                                          failedAt: Time, canaryAt: Time, passedAt: Time, now: Time)
    requires c in t.candidates && t.candidates[c].status.Evaluated?
    requires failing != [] && !Passes(PassCount(failing), |failing|)
    requires passing != [] && Passes(PassCount(passing), |passing|) && canaryAt <= passedAt
    ensures var (t1, r1) := Serial.RecordEvalCall(t, c, failing, failedAt);
      var (t2, r2) := Serial.CanaryCall(t1, c, canaryAt);
      var (t3, r3) := Serial.RecordEvalCall(t2, c, passing, passedAt);
      var (t4, r4) := Serial.PromoteCall(t3, c, now);
      && r1.Success? && r2.Success? && r3.Success? && r4.Success?
      && IsPromoted(t4, c, t.candidates[c].cls) && Eval(c, false, failedAt, Evaluated) in t4.evals
  {
    FailureIsRecorded(t, c, failing, failedAt);
    var t1 := Record(t, c, false, failedAt);
    CanaryAndPass(t1, c, passing, canaryAt, passedAt);
    var t3 := Serial.RecordEvalCall(Serial.CanaryCall(t1, c, canaryAt).0, c, passing, passedAt).0;
    assert t3.evals[|t.evals|] == t1.evals[|t.evals|] == Eval(c, false, failedAt, Evaluated);
    EvidencePromotes(t3, c, now);
  }

  lemma FailureIsRecorded(t: Tables, c: Id, failing: seq<bool>, at: Time)
    requires c in t.candidates && t.candidates[c].status.Evaluated?
    requires failing != [] && !Passes(PassCount(failing), |failing|)
    ensures Serial.RecordEvalCall(t, c, failing, at) == (Record(t, c, false, at), Success(()))
    ensures Record(t, c, false, at).candidates == t.candidates
  {
    assert t.candidates[c].(status := Evaluated) == t.candidates[c];
  }

  lemma CanaryAndPass(t: Tables, c: Id, passing: seq<bool>, canaryAt: Time, passedAt: Time)
    requires c in t.candidates && t.candidates[c].status.Evaluated?
    requires passing != [] && Passes(PassCount(passing), |passing|) && canaryAt <= passedAt
    ensures var (t2, r2) := Serial.CanaryCall(t, c, canaryAt);
      var (t3, r3) := Serial.RecordEvalCall(t2, c, passing, passedAt);
      && r2.Success? && r3.Success? && t.evals <= t3.evals
      && c in t3.candidates && t3.candidates[c].status.Canary? && t3.candidates[c].cls == t.candidates[c].cls
      && HasEvidence(t3, c, t3.candidates[c].canaryAt)
  {
    var t3 := Serial.RecordEvalCall(Serial.CanaryCall(t, c, canaryAt).0, c, passing, passedAt).0;
    assert Counts(t3.evals[|t.evals|], c, Some(canaryAt));
  }

  lemma EvidencePromotes(t: Tables, c: Id, now: Time)
    requires c in t.candidates && t.candidates[c].status.Canary? && HasEvidence(t, c, t.candidates[c].canaryAt)
    ensures var (u, r) := Serial.PromoteCall(t, c, now);
      r.Success? && IsPromoted(u, c, t.candidates[c].cls) && u.evals == t.evals
  {
  }
}
