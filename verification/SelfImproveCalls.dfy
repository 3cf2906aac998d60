/** What each call to the self-improvement engine answers and writes, status by status: from where to where a candidate
    moves, what counts as a pass, and which dates and targets are recorded. */
module SelfImproveCalls {
  import opened Wrappers
  import opened SelfImprove
  import opened SelfImproveEngine

  // ---- what a pass is ----------------------------------------------------------------------------------

  /** The cases that failed. */
  function Failing(results: seq<bool>): set<nat> {
    set i: nat | i < |results| && !results[i]
  }

  lemma {:induction false} PassesAndFailures(results: seq<bool>)
    ensures PassCount(results) + |Failing(results)| == |results|
  {
    if results != [] {
      var last := |results| - 1;
      PassesAndFailures(results[..last]);
      if results[last] {
        assert Failing(results) == Failing(results[..last]);
      } else {
        assert Failing(results) == Failing(results[..last]) + {last};
      }
    }
  }

  /** The status an eval leaves a candidate in. */
  function Judged(status: Status, passed: bool): Status {
    if status == Generated then (if passed then Evaluated else Rejected)
    else if status == Canary && !passed then Rejected
    else status
  }

  /** An eval passes if and only if at most a tenth of its cases fail. It is recorded under the candidate's status, and
      moves generated candidates to evaluated or rejected and failing canary ones to rejected; no other field changes, and
      no other row. */
  lemma EvalsPassWithAtMostATenthFailing(t: Tables, c: Id, results: seq<bool>, now: Time)
    requires c in t.candidates && results != []
    ensures var (u, r) := RecordEvalCall(t, c, results, now);
      var passed := 10 * |set i: nat | i < |results| && !results[i]| <= |results|;
      var status := t.candidates[c].status;
      && r.Success?
      && u.evals == t.evals + [Eval(c, passed, now, status)]
      && u.candidates == t.candidates[c := t.candidates[c].(status := Judged(status, passed))]
  {
    PassesAndFailures(results);
    assert Failing(results) == set i: nat | i < |results| && !results[i];
    assert Judged(t.candidates[c].status, true) == AfterEval(t.candidates[c].status, true);
    assert Judged(t.candidates[c].status, false) == AfterEval(t.candidates[c].status, false);
  }

  /** An eval needs a case and a candidate. */
  lemma EvalsNeedACaseAndACandidate(t: Tables, c: Id, results: seq<bool>, now: Time)
    ensures RecordEvalCall(t, c, results, now).1.Success? <==> results != [] && c in t.candidates
    ensures results == [] ==> RecordEvalCall(t, c, results, now) == (t, Failure(NoCases))
    ensures results != [] && c !in t.candidates ==> RecordEvalCall(t, c, results, now) == (t, Failure(NotFound))
  {
  }

  // ---- single rows -------------------------------------------------------------------------------------

  /** One of the five classes and a reference make a candidate. */
  lemma GeneratesNamedCandidates(t: Tables, cls: CandidateClass, ref: string, generatedBy: string, id: Id)
    ensures GenerateCall(t, cls, ref, generatedBy, id) ==
      if cls !in {Prompt, RetrievalPolicy, Skill, CoreModule, CoreCode} then (t, Failure(InvalidClass))
      else if ref == "" then (t, Failure(RefRequired))
      else (Tables(t.candidates[id := Candidate(cls, ref, Generated, generatedBy, None, None, None, None, None)], t.evals),
            Success(()))
  {
  }

  /** Canary takes exactly the evaluated, and dates them. */
  lemma CanaryTakesTheEvaluated(t: Tables, c: Id, now: Time)
    ensures CanaryCall(t, c, now) ==
      if c !in t.candidates then (t, Failure(NotFound))
      else if t.candidates[c].status != Evaluated then (t, Failure(InvalidTransition))
      else (Tables(t.candidates[c := t.candidates[c].(status := Canary, canaryAt := Some(now))], t.evals), Success(()))
  {
  }

  /** Demote takes exactly the promoted, dates them, and keeps their target. */
  lemma DemoteTakesThePromoted(t: Tables, c: Id, now: Time)
    ensures DemoteCall(t, c, now) ==
      if c !in t.candidates then (t, Failure(NotFound))
      else if t.candidates[c].status != Promoted then (t, Failure(InvalidTransition))
      else (Tables(t.candidates[c := t.candidates[c].(status := Demoted, demotedAt := Some(now))], t.evals), Success(()))
  {
  }

  /** Reject takes exactly what has not been promoted or rejected yet. */
  lemma RejectTakesTheUndecided(t: Tables, c: Id)
    ensures RejectCall(t, c) ==
      if c !in t.candidates then (t, Failure(NotFound))
      else if t.candidates[c].status !in {Generated, Evaluated, Canary} then (t, Failure(InvalidTransition))
      else (Tables(t.candidates[c := t.candidates[c].(status := Rejected)], t.evals), Success(()))
  {
  }

  // ---- two rows ----------------------------------------------------------------------------------------

  /** A passing eval of `c` dated at or after this time. */
  ghost predicate PassedSince(t: Tables, c: Id, since: Time) {
    exists i :: 0 <= i < |t.evals| && t.evals[i].candidate == c && t.evals[i].passed && t.evals[i].at >= since
  }

  /** Promote takes exactly a canary candidate with a passing eval dated no earlier than its canary_at. */
  lemma PromoteTakesTheProven(t: Tables, c: Id, now: Time)
    requires c in t.candidates && (t.candidates[c].status == Canary ==> t.candidates[c].canaryAt.Some?)
    ensures var (u, r) := PromoteCall(t, c, now);
      && (r.Success? <==> t.candidates[c].status == Canary && PassedSince(t, c, t.candidates[c].canaryAt.value))
      && (r.Failure? ==> u == t && r.error == if t.candidates[c].status == Canary then NoCanaryEvidence else InvalidTransition)
  {
    if t.candidates[c].status == Canary {
      var since := t.candidates[c].canaryAt.value;
      if HasEvidence(t, c, Some(since)) {
        var i :| 0 <= i < |t.evals| && Counts(t.evals[i], c, Some(since));
        assert t.evals[i].candidate == c;
      }
      if i :| 0 <= i < |t.evals| && t.evals[i].candidate == c && t.evals[i].passed && t.evals[i].at >= since {
        assert Counts(t.evals[i], c, Some(since));
      }
    }
  }

  /** It promotes the candidate, and demotes and remembers whoever else of its class was promoted; all at one time. */
  lemma PromoteReplacesTheHolder(t: Tables, c: Id, now: Time, p: Id)
    requires OnePromoted(t) && PromoteCall(t, c, now).1.Success? && p != c
    requires p in t.candidates && t.candidates[p].status == Promoted && t.candidates[p].cls == t.candidates[c].cls
    ensures PromoteCall(t, c, now).0 ==
      Tables(t.candidates[p := t.candidates[p].(status := Demoted, demotedAt := Some(now))]
                         [c := t.candidates[c].(status := Promoted, promotedAt := Some(now), rollbackTarget := Some(p))],
             t.evals)
  {
    assert IsPromoted(t, p, t.candidates[c].cls);
  }

  /** With nobody to replace there is nothing to go back to. */
  lemma PromoteWithoutAHolder(t: Tables, c: Id, now: Time)
    requires PromoteCall(t, c, now).1.Success?
    requires forall p: Id :: p in t.candidates && t.candidates[p].status == Promoted && p != c ==>
      t.candidates[p].cls != t.candidates[c].cls
    ensures PromoteCall(t, c, now).0 ==
      Tables(t.candidates[c := t.candidates[c].(status := Promoted, promotedAt := Some(now), rollbackTarget := None)], t.evals)
  {
    forall p: Id ensures !(p != c && IsPromoted(t, p, t.candidates[c].cls)) {
    }
  }

  lemma PromoteNeedsACandidate(t: Tables, c: Id, now: Time)
    requires c !in t.candidates
    ensures PromoteCall(t, c, now) == (t, Failure(NotFound)) && RollbackCall(t, c, now) == (t, Failure(NotFound))
  {
  }

  /** Rollback takes exactly a demoted candidate that has a target, while nobody of its class is promoted; it marks the
      candidate rolled back and promotes the target, whose own target the candidate becomes. */
  lemma RollbackRestoresTheTarget(t: Tables, c: Id, now: Time)
    requires c in t.candidates
    requires t.candidates[c].rollbackTarget.Some? ==>
      t.candidates[c].rollbackTarget.value in t.candidates && t.candidates[c].rollbackTarget.value != c
    ensures var row := t.candidates[c];
      RollbackCall(t, c, now) ==
        if row.status != Demoted then (t, Failure(InvalidTransition))
        else if row.rollbackTarget == None then (t, Failure(NoRollbackTarget))
        else if exists x :: x in t.candidates && t.candidates[x].status == Promoted && t.candidates[x].cls == row.cls
        then (t, Failure(RollbackBlocked))
        else
          var p := row.rollbackTarget.value;
          (Tables(t.candidates[c := row.(status := RolledBack, rolledBackAt := Some(now))]
                              [p := t.candidates[p].(status := Promoted, promotedAt := Some(now), rollbackTarget := Some(c))],
                  t.evals),
           Success(()))
  {
    var row := t.candidates[c];
    if x: Id :| IsPromoted(t, x, row.cls) {
      assert x in t.candidates && t.candidates[x].status == Promoted && t.candidates[x].cls == row.cls;
    }
    if x :| x in t.candidates && t.candidates[x].status == Promoted && t.candidates[x].cls == row.cls {
      assert IsPromoted(t, x, row.cls);
    }
  }
}
