/** What every run of the self-improvement engine guarantees, however its transactions interleave and wherever
    they stop. */
module SelfImproveTheorems {
  import opened Wrappers
  import opened SelfImprove
  import opened SelfImproveRuns
  import Serial = SelfImproveEngine

  // ---- safety over every run -------------------------------------------------------------------------

  /** In every reachable state at most one candidate per class is committed as promoted, although only Promote
      and Rollback take the class lock, and even if two classes hash to one lock. The unique index behind it
      never fires. */
  lemma AtMostOnePromoted(hashes: map<CandidateClass, int>, events: seq<Event>)
    ensures var t := Run(Start(hashes), events).tables;
      forall x, y ::
        (&& x in t.candidates && t.candidates[x].status.Promoted?
         && y in t.candidates && t.candidates[y].status.Promoted?
         && t.candidates[x].cls == t.candidates[y].cls) ==> x == y
  {
    RunKeepsInv(Start(hashes), events);
    var t := Run(Start(hashes), events).tables;
    assert OnePromoted(t);
    forall x, y | x in t.candidates && y in t.candidates && t.candidates[x].status.Promoted?
                  && t.candidates[y].status.Promoted? && t.candidates[x].cls == t.candidates[y].cls
      ensures x == y
    {
      assert IsPromoted(t, x, t.candidates[x].cls) && IsPromoted(t, y, t.candidates[x].cls);
    }
  }

  /** In every reachable state, every candidate that is or was promoted, including one that Rollback restored
      without looking, has a passing eval dated at or after its own canary_at, and no eval recorded while it was
      generated or in canary ever failed. */
  lemma PromotionHadEvidence(hashes: map<CandidateClass, int>, events: seq<Event>, x: Id)
    requires x in Run(Start(hashes), events).tables.candidates
    requires OnceLive(Run(Start(hashes), events).tables.candidates[x].status)
    ensures var t := Run(Start(hashes), events).tables;
      && t.candidates[x].canaryAt.Some?
      && (exists i :: 0 <= i < |t.evals| && t.evals[i].candidate == x && t.evals[i].passed
                      && t.evals[i].at >= t.candidates[x].canaryAt.value)
      && NeverFailedEarly(t, x)
  {
    RunKeepsInv(Start(hashes), events);
    var t := Run(Start(hashes), events).tables;
    assert EvidenceOk(t, x);
    var i :| 0 <= i < |t.evals| && Counts(t.evals[i], x, t.candidates[x].canaryAt);
  }

  /** In every reachable state a rollback target is a different candidate of the same class that was itself
      promoted once, which is what lets Rollback promote it unseen. */
  lemma RollbackTargetsWereLive(hashes: map<CandidateClass, int>, events: seq<Event>, x: Id, p: Id)
    requires x in Run(Start(hashes), events).tables.candidates
    requires Run(Start(hashes), events).tables.candidates[x].rollbackTarget == Some(p)
    ensures var rows := Run(Start(hashes), events).tables.candidates;
      && p != x && p in rows && rows[p].cls == rows[x].cls && OnceLive(rows[p].status) && OnceLive(rows[x].status)
  {
    RunKeepsInv(Start(hashes), events);
    assert TargetOk(Run(Start(hashes), events).tables, x);
  }

  /** A failing eval recorded while a candidate is evaluated but not yet in canary, or once it has been promoted,
      is kept and moves nothing; only generated and canary candidates are judged. */
  lemma OnlyGeneratedAndCanaryAreJudged(t: Tables, c: Id, now: Time)
    requires c in t.candidates
    ensures t.candidates[c].status.Generated? || t.candidates[c].status.Canary? <==>
      Record(t, c, false, now).candidates[c].status.Rejected? && !t.candidates[c].status.Rejected?
    ensures !(t.candidates[c].status.Generated? || t.candidates[c].status.Canary?) ==>
      Record(t, c, false, now).candidates == t.candidates
  {
    if !(t.candidates[c].status.Generated? || t.candidates[c].status.Canary?) {
      assert t.candidates[c].(status := t.candidates[c].status) == t.candidates[c];
    }
  }

  /** Canary evidence is only as good as the clock: a Promote that comes right after Canary, with no eval in between,
      succeeds if and only if a passing eval from before Canary is dated no earlier than the time Canary recorded, as
      one from the same millisecond is. */
  lemma PromotionRightAfterCanary(t: Tables, c: Id, now: Time, later: Time)
    requires c in t.candidates && t.candidates[c].status.Evaluated?
    ensures Serial.PromoteCall(Serial.CanaryCall(t, c, now).0, c, later).1.Success?
      <==> exists i :: 0 <= i < |t.evals| && t.evals[i].candidate == c && t.evals[i].passed && t.evals[i].at >= now
  {
    var u := Serial.CanaryCall(t, c, now).0;
    assert u.evals == t.evals && u.candidates[c].canaryAt == Some(now);
    if HasEvidence(u, c, Some(now)) {
      var i :| 0 <= i < |u.evals| && Counts(u.evals[i], c, Some(now));
      assert t.evals[i].candidate == c;
    }
    if i :| 0 <= i < |t.evals| && t.evals[i].candidate == c && t.evals[i].passed && t.evals[i].at >= now {
      assert Counts(u.evals[i], c, Some(now));
    }
  }

  // ---- no deadlock -------------------------------------------------------------------------------------

  /** The event is transaction `t`'s own next statement, not its failure. */
  predicate Advances(ev: Event, t: Id) {
    match ev
    case Generate(_, _, _, _) | Canary(_, _) | Demote(_, _) | Reject(_) | Begin(_, _, _) | BeginEval(_, _, _) | Abort(_) => false
    case _ => ev.t == t
  }

  ghost predicate CanAdvance(w: World, t: Id) {
    exists ev :: Advances(ev, t) && Possible(w, ev)
  }

  /** Whoever holds the row of a candidate in a class that `t` has locked is RecordEval, which waits for
      nothing, or `t` itself. */
  lemma RowHolderIsEvaluating(w: World, t: Id, r: Id)
    requires Inv(w) && t in w.txs && HoldsClass(w.txs[t].pc) && InClass(w.tables, r, w.txs[t].pc.cls)
    requires r in w.rowLocks && r !in HeldRows(w.txs[t].pc)
    ensures w.rowLocks[r] in w.txs && CanAdvance(w, w.rowLocks[r])
  {
    var h := w.rowLocks[r];
    assert TxOk(w.tables, w.txs[h]) && TxOk(w.tables, w.txs[t]);
    assert w.txs[h].pc.Evaluating?;
    assert Advances(CommitEval(h, 0), h) && Possible(w, CommitEval(h, 0));
  }

  ghost predicate SomeoneAdvances(w: World) {
    exists u :: u in w.txs && CanAdvance(w, u)
  }

  lemma AdvancesWith(w: World, t: Id, ev: Event)
    requires t in w.txs && Advances(ev, t) && Possible(w, ev)
    ensures SomeoneAdvances(w)
  {
    assert CanAdvance(w, t);
  }

  /** A transaction that needs a row of its class gets it, or whoever has it advances. */
  lemma RowOrHolderAdvances(w: World, t: Id, r: Id, ev: Event)
    requires Inv(w) && t in w.txs && HoldsClass(w.txs[t].pc) && InClass(w.tables, r, w.txs[t].pc.cls)
    requires r !in HeldRows(w.txs[t].pc) && Advances(ev, t) && (RowFree(w, r) ==> Possible(w, ev))
    ensures SomeoneAdvances(w)
  {
    if RowFree(w, r) {
      AdvancesWith(w, t, ev);
    } else {
      RowHolderIsEvaluating(w, t, r);
    }
  }

  lemma PromoterAdvances(w: World, t: Id)
    requires Inv(w) && t in w.txs && TxOk(w.tables, w.txs[t])
    requires w.txs[t].pc.SawCanary? || w.txs[t].pc.SawEvidence? || w.txs[t].pc.SawPrevious? || w.txs[t].pc.DemotedPrevious?
    ensures SomeoneAdvances(w)
  {
    match w.txs[t].pc
    case SawCanary(c, _, since) => AdvancesWith(w, t, CheckEvidence(t, HasEvidence(w.tables, c, since)));
    case SawEvidence(c, cls) =>
      AdvancesWith(w, t, ReadPrevious(t, if p: Id :| p != c && IsPromoted(w.tables, p, cls) then Some(p) else None));
    case SawPrevious(_, _, prev) =>
      if prev.None? {
        AdvancesWith(w, t, DemotePrevious(t, 0));
      } else {
        RowOrHolderAdvances(w, t, prev.value, DemotePrevious(t, 0));
      }
    case DemotedPrevious(_, _, _, _) => AdvancesWith(w, t, WriteSelf(t));
  }

  lemma RollerAdvances(w: World, t: Id)
    requires Inv(w) && t in w.txs && TxOk(w.tables, w.txs[t])
    requires w.txs[t].pc.SawDemoted? || w.txs[t].pc.SawNonePromoted? || w.txs[t].pc.MarkedRolledBack?
    ensures SomeoneAdvances(w)
  {
    match w.txs[t].pc
    case SawDemoted(_, cls, _) => AdvancesWith(w, t, CheckNonePromoted(t, NonePromoted(w.tables, cls)));
    case SawNonePromoted(_, _, _) => AdvancesWith(w, t, MarkRolledBack(t, 0));
    case MarkedRolledBack(_, _, target, _) => RowOrHolderAdvances(w, t, target, RestoreTarget(t));
  }

  /** A transaction that holds its class can advance, or the one in its way can. */
  lemma HolderOrBlockerAdvances(w: World, t: Id)
    requires Inv(w) && t in w.txs && !w.txs[t].pc.Begun?
    ensures SomeoneAdvances(w)
  {
    var pc := w.txs[t].pc;
    assert TxOk(w.tables, w.txs[t]);
    if pc.Holding? {
      RowOrHolderAdvances(w, t, pc.c, LockRow(t));
    } else if pc.SawCanary? || pc.SawEvidence? || pc.SawPrevious? || pc.DemotedPrevious? {
      PromoterAdvances(w, t);
    } else if pc.SawDemoted? || pc.SawNonePromoted? || pc.MarkedRolledBack? {
      RollerAdvances(w, t);
    } else {
      AdvancesWith(w, t, if pc.Evaluating? then CommitEval(t, 0) else Commit(t));
    }
  }

  /** In every reachable state with a transaction running, some transaction can execute its next statement: the
      class lock, the candidate's row and the other row are never waited for in a circle. */
  lemma NoDeadlock(hashes: map<CandidateClass, int>, events: seq<Event>, t: Id)
    requires t in Run(Start(hashes), events).txs
    ensures SomeoneAdvances(Run(Start(hashes), events))
  {
    var w := Run(Start(hashes), events);
    RunKeepsInv(Start(hashes), events);
    if !w.txs[t].pc.Begun? {
      HolderOrBlockerAdvances(w, t);
    } else if Key(w.hashes, w.txs[t].pc.cls) in w.classLocks {
      HolderOrBlockerAdvances(w, w.classLocks[Key(w.hashes, w.txs[t].pc.cls)]);
    } else {
      AdvancesWith(w, t, LockClass(t));
    }
  }

  // ---- a concurrent commit against the one-call specification ------------------------------------------

  /** A Rollback commits exactly what a whole Rollback call would do at that moment. */
  lemma RollbackCommitIsOneCall(w: World, t: Id)
    requires Inv(w) && t in w.txs && w.txs[t].pc.WroteRestore?
    ensures (Next(w, Commit(t)).tables, Success(())) == Serial.RollbackCall(w.tables, w.txs[t].pc.c, w.txs[t].pc.now)
  {
    assert TxOk(w.tables, w.txs[t]);
    RollbackCommits(w, t);
  }

  /** A single statement that finds its row free does what the whole call does, whether that succeeds or is refused. */
  lemma SingleStatementsAreCalls(w: World, c: Id, now: Time)
    requires RowFree(w, c)
    ensures Next(w, Event.Canary(c, now)).tables == Serial.CanaryCall(w.tables, c, now).0
    ensures Next(w, Demote(c, now)).tables == Serial.DemoteCall(w.tables, c, now).0
    ensures Next(w, Reject(c)).tables == Serial.RejectCall(w.tables, c).0
    ensures Next(w, Event.Canary(c, now)).txs == Next(w, Demote(c, now)).txs == Next(w, Reject(c)).txs == w.txs
  {
  }

  lemma GenerateIsOneCall(w: World, c: Id, cls: CandidateClass, ref: string, generatedBy: string)
    requires c !in w.tables.candidates
    ensures Next(w, Generate(c, cls, ref, generatedBy)).tables == Serial.GenerateCall(w.tables, cls, ref, generatedBy, c).0
  {
  }

  /** A RecordEval commits what the whole call would do at that moment, whatever happened since it read the status. */
  lemma EvalCommitIsOneCall(w: World, t: Id, results: seq<bool>, now: Time)
    requires Inv(w) && t in w.txs && w.txs[t].pc.Evaluating? && results != []
    requires w.txs[t].pc.passed == Passes(PassCount(results), |results|)
    ensures (Next(w, CommitEval(t, now)).tables, Success(())) == Serial.RecordEvalCall(w.tables, w.txs[t].pc.c, results, now)
  {
    assert TxOk(w.tables, w.txs[t]);
  }

  /** A Promote commits exactly what a whole Promote call would do at that moment if and only if the candidate it
      read as previously promoted, if any, still is: a Demote of that candidate can slip in between the read and
      the write, and then the rollback target and the demotion time are those of the earlier moment. */
  lemma PromoteCommitIsOneCall(w: World, t: Id)
    requires Inv(w) && t in w.txs && w.txs[t].pc.WrotePromotion?
    ensures var pc := w.txs[t].pc;
      (Next(w, Commit(t)).tables, Success(())) == Serial.PromoteCall(w.tables, pc.c, pc.now)
      <==> (pc.prev.Some? ==> pc.prev.value in w.tables.candidates && w.tables.candidates[pc.prev.value].status.Promoted?)
  {
    var pc := w.txs[t].pc;
    assert TxOk(w.tables, w.txs[t]);
    PromoteCommits(w, t);
    var prev := Serial.PreviousOf(w.tables, pc.c);
    assert Serial.PromoteCall(w.tables, pc.c, pc.now).0 == Promote(w.tables, pc.c, prev, pc.now);
    assert Promote(w.tables, pc.c, prev, pc.now).candidates[pc.c].rollbackTarget == prev;
    assert Promote(w.tables, pc.c, pc.prev, pc.now).candidates[pc.c].rollbackTarget == pc.prev;
    if pc.prev.Some? && w.tables.candidates[pc.prev.value].status.Promoted? {
      assert IsPromoted(w.tables, pc.prev.value, pc.cls);
    }
  }

  /** A Promote that is about to demote `p`. */
  ghost predicate AboutToDemote(w: World, t: Id, p: Id) {
    Inv(w) && t in w.txs && w.txs[t].pc.SawPrevious? && w.txs[t].pc.prev == Some(p) && RowFree(w, p)
  }

  lemma DemoteDisturbsNothing(w: World, t: Id, p: Id, demoteAt: Time)
    requires AboutToDemote(w, t, p) && p in w.tables.candidates && w.tables.candidates[p].status.Promoted?
    ensures var w1 := Next(w, Demote(p, demoteAt));
      && AboutToDemote(w1, t, p) && w1.txs == w.txs
      && (w1.tables, Success(())) == Serial.DemoteCall(w.tables, p, demoteAt)
  {
    NextKeepsInv(w, Demote(p, demoteAt));
  }

  /** The promotion as it stands before it commits. */
  ghost predicate Written(w: World, t: Id, c: Id, cls: CandidateClass, p: Id, now: Time) {
    Inv(w) && t in w.txs && w.txs[t].pc == WrotePromotion(c, cls, Some(p), now)
  }

  lemma PromoteWritesBoth(w: World, t: Id, p: Id, now: Time)
    requires AboutToDemote(w, t, p)
    ensures Written(Next(Next(w, DemotePrevious(t, now)), WriteSelf(t)), t, w.txs[t].pc.c, w.txs[t].pc.cls, p, now)
  {
    assert TxOk(w.tables, w.txs[t]);
    NextKeepsInv(w, DemotePrevious(t, now));
    NextKeepsInv(Next(w, DemotePrevious(t, now)), WriteSelf(t));
  }

  lemma WrittenCommits(w: World, t: Id, c: Id, cls: CandidateClass, p: Id, now: Time)
    requires Written(w, t, c, cls, p, now)
    ensures var u := Next(w, Commit(t)).tables;
      && IsPromoted(u, c, cls) && u.candidates[c].rollbackTarget == Some(p)
      && p in u.candidates && u.candidates[p].demotedAt == Some(now)
  {
    assert TxOk(w.tables, w.txs[t]);
    PromoteCommits(w, t);
  }

  /** How that happens: from any reachable state where a Promote has just read `p` as the promoted one, a Demote
      of `p` succeeds, the Promote commits after it, and `p` ends as the rollback target with the Promote's
      demotion time, not the Demote's. */
  lemma DemoteCanSlipIn(w: World, t: Id, p: Id, demoteAt: Time, now: Time)
    requires AboutToDemote(w, t, p) && p in w.tables.candidates && w.tables.candidates[p].status.Promoted?
    ensures var w1 := Next(w, Demote(p, demoteAt));
      var w2 := Next(Next(Next(w1, DemotePrevious(t, now)), WriteSelf(t)), Commit(t));
      && w1.tables == Serial.DemoteCall(w.tables, p, demoteAt).0 && Serial.DemoteCall(w.tables, p, demoteAt).1.Success?
      && IsPromoted(w2.tables, w.txs[t].pc.c, w.txs[t].pc.cls)
      && w2.tables.candidates[w.txs[t].pc.c].rollbackTarget == Some(p)
      && p in w2.tables.candidates && w2.tables.candidates[p].demotedAt == Some(now)
  {
    var (c, cls) := (w.txs[t].pc.c, w.txs[t].pc.cls);
    DemoteDisturbsNothing(w, t, p, demoteAt);
    var w1 := Next(w, Demote(p, demoteAt));
    PromoteWritesBoth(w1, t, p, now);
    WrittenCommits(Next(Next(w1, DemotePrevious(t, now)), WriteSelf(t)), t, c, cls, p, now);
  }

  // ---- rolling back and forth --------------------------------------------------------------------------

  /** Demote the promoted candidate and roll it back. */
  ghost function Round(t: Tables, p: Id, demoteAt: Time, rollbackAt: Time): Serial.Outcome {
    var (u, r) := Serial.DemoteCall(t, p, demoteAt);
    if r.Failure? then (u, r) else Serial.RollbackCall(u, p, rollbackAt)
  }

  /** Rounds in a row, each on the candidate the one before restored: the tables, who is promoted, and whether
      every call succeeded. */
  ghost function Rounds(t: Tables, p: Id, times: seq<(Time, Time)>): (Tables, Id, bool)
    decreases |times|
  {
    if times == [] then (t, p, true)
    else if p !in t.candidates || t.candidates[p].rollbackTarget.None? then (t, p, false)
    else
      var (u, r) := Round(t, p, times[0].0, times[0].1);
      if r.Failure? then (u, p, false) else Rounds(u, t.candidates[p].rollbackTarget.value, times[1..])
  }

  lemma NoneLeftPromoted(t: Tables, p: Id, demoteAt: Time)
    requires OnePromoted(t) && p in t.candidates && t.candidates[p].status.Promoted?
    ensures forall x: Id :: !IsPromoted(Serial.DemoteCall(t, p, demoteAt).0, x, t.candidates[p].cls)
  {
    var u := Serial.DemoteCall(t, p, demoteAt).0;
    var cls := t.candidates[p].cls;
    assert IsPromoted(t, p, cls);
    forall x: Id | x != p ensures IsPromoted(u, x, cls) ==> IsPromoted(t, x, cls) {
    }
  }

  /** `p` is promoted and would be rolled back to `q`. */
  ghost predicate Live(t: Tables, p: Id, q: Id) {
    Sound(t) && p in t.candidates && t.candidates[p].status.Promoted? && t.candidates[p].rollbackTarget == Some(q)
  }

  /** No row but these two, and no eval, has changed. */
  ghost predicate OnlyTheseTwo(t: Tables, u: Tables, p: Id, q: Id) {
    && u.evals == t.evals && u.candidates.Keys == t.candidates.Keys
    && forall x :: x in t.candidates && x != p && x != q ==> u.candidates[x] == t.candidates[x]
  }

  lemma OnlyTheseTwoStill(t: Tables, u: Tables, v: Tables, p: Id, q: Id)
    requires OnlyTheseTwo(t, u, p, q) && OnlyTheseTwo(u, v, q, p)
    ensures OnlyTheseTwo(t, v, p, q)
  {
  }

  lemma DemoteThenRollback(t: Tables, p: Id, q: Id, demoteAt: Time, rollbackAt: Time)
    requires Live(t, p, q) && q in t.candidates
    requires forall x: Id :: !IsPromoted(Serial.DemoteCall(t, p, demoteAt).0, x, t.candidates[p].cls)
    ensures Round(t, p, demoteAt, rollbackAt) ==
      (Rollback(Serial.DemoteCall(t, p, demoteAt).0, p, q, rollbackAt), Success(()))
  {
  }

  lemma RoundSwaps(t: Tables, p: Id, q: Id, demoteAt: Time, rollbackAt: Time)
    requires Live(t, p, q)
    ensures var (u, r) := Round(t, p, demoteAt, rollbackAt);
      r.Success? && Live(u, q, p) && OnlyTheseTwo(t, u, p, q) && u.candidates[p].status.RolledBack?
  {
    assert TargetOk(t, p);
    DemoteIsSound(t, p, demoteAt);
    NoneLeftPromoted(t, p, demoteAt);
    DemoteThenRollback(t, p, q, demoteAt, rollbackAt);
    var v := Serial.DemoteCall(t, p, demoteAt).0;
    RolledBackSwaps(v, p, q, t.candidates[p].cls, rollbackAt);
    OnlyTheseTwoOnward(t, v, Rollback(v, p, q, rollbackAt), p, q);
  }

  lemma OnlyTheseTwoOnward(t: Tables, u: Tables, v: Tables, p: Id, q: Id)
    requires OnlyTheseTwo(t, u, p, q) && OnlyTheseTwo(u, v, p, q)
    ensures OnlyTheseTwo(t, v, p, q)
  {
  }

  lemma RolledBackSwaps(t: Tables, p: Id, q: Id, cls: CandidateClass, at: Time)
    requires Sound(t) && p in t.candidates && t.candidates[p].cls == cls && t.candidates[p].status.Demoted?
    requires t.candidates[p].rollbackTarget == Some(q) && forall x: Id :: !IsPromoted(t, x, cls)
    ensures q in t.candidates
    ensures var u := Rollback(t, p, q, at);
      Live(u, q, p) && OnlyTheseTwo(t, u, p, q) && u.candidates[p].status.RolledBack?
  {
    RollbackIsSound(t, p, cls, q, at);
  }

  lemma FirstRound(t: Tables, p: Id, q: Id, times: seq<(Time, Time)>) returns (u: Tables)
    requires Live(t, p, q) && times != []
    ensures Live(u, q, p) && OnlyTheseTwo(t, u, p, q) && Rounds(t, p, times) == Rounds(u, q, times[1..])
  {
    RoundSwaps(t, p, q, times[0].0, times[0].1);
    u := Round(t, p, times[0].0, times[0].1).0;
  }

  lemma {:induction false} RoundsAlternate(t: Tables, p: Id, q: Id, times: seq<(Time, Time)>)
    requires Live(t, p, q)
    ensures var (u, now, ok) := Rounds(t, p, times);
      && ok && now == (if |times| % 2 == 0 then p else q)
      && now in u.candidates && u.candidates[now].status.Promoted? && OnlyTheseTwo(t, u, p, q)
    decreases |times|
  {
    if times != [] {
      var u := FirstRound(t, p, q, times);
      RoundsAlternate(u, q, p, times[1..]);
      OnlyTheseTwoStill(t, u, Rounds(u, q, times[1..]).0, p, q);
      ParityAlternates(|times|, |times[1..]|);
    }
  }

  lemma ParityAlternates(m: nat, n: nat)
    requires m == n + 1
    ensures m % 2 == 0 <==> n % 2 != 0
  {
  }

  lemma RollbackRestores(t: Tables, c: Id, now: Time)
    requires Sound(t) && Serial.RollbackCall(t, c, now).1.Success?
    ensures var u := Serial.RollbackCall(t, c, now).0;
      var target := t.candidates[c].rollbackTarget.value;
      Live(u, target, c) && OnlyTheseTwo(t, u, c, target)
  {
    RollbackIsSound(t, c, t.candidates[c].cls, t.candidates[c].rollbackTarget.value, now);
  }

  /** After a successful Rollback of `c`, any number of further rounds of demoting and rolling back the promoted
      candidate all succeed; the promoted candidate is the restored target after an even number and `c` after an
      odd number; and no other row and no eval ever changes. */
  lemma RollbackCanBeReversedForEver(t: Tables, c: Id, now: Time, times: seq<(Time, Time)>)
    requires Sound(t) && Serial.RollbackCall(t, c, now).1.Success?
    ensures var target := t.candidates[c].rollbackTarget.value;
      var (v, promoted, ok) := Rounds(Serial.RollbackCall(t, c, now).0, target, times);
      && ok && promoted == (if |times| % 2 == 0 then target else c)
      && promoted in v.candidates && v.candidates[promoted].status.Promoted? && OnlyTheseTwo(t, v, c, target)
  {
    RollbackRestores(t, c, now);
    RoundsAlternate(Serial.RollbackCall(t, c, now).0, t.candidates[c].rollbackTarget.value, c, times);
  }
}
