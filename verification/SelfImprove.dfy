/** The self-improvement candidate lifecycle (daemon/selfimprove/selfimprove.go): the two tables, what each
    statement writes, and the invariant every statement has to keep. */
module SelfImprove {
  import opened Wrappers

  type Id = nat

  /** Milliseconds; see Timestamps.LexIsChronological. */
  type Time = int

  datatype CandidateClass = Prompt | RetrievalPolicy | Skill | CoreModule | CoreCode | Unrecognised(name: string)

  datatype Status = Generated | Evaluated | Canary | Promoted | Rejected | Demoted | RolledBack

  datatype Candidate = Candidate(
    cls: CandidateClass,
    ref: string,
    status: Status,
    generatedBy: string,
    canaryAt: Option<Time>,
    promotedAt: Option<Time>,
    demotedAt: Option<Time>,
    rolledBackAt: Option<Time>,
    rollbackTarget: Option<Id>)

  /** One row of eval; `during` is history: the candidate's status when RecordEval read it under the row
      lock. */
  datatype Eval = Eval(candidate: Id, passed: bool, at: Time, during: Status)

  datatype Tables = Tables(candidates: map<Id, Candidate>, evals: seq<Eval>)

  datatype Error =
    | NotFound | InvalidClass | RefRequired | NoCases | InvalidTransition
    | NoCanaryEvidence | NoRollbackTarget | RollbackBlocked

  function PassCount(results: seq<bool>): nat {
    if results == [] then 0
    else PassCount(results[..|results| - 1]) + if results[|results| - 1] then 1 else 0
  }

  /** MinPassRate is nine tenths. */
  predicate Passes(passCount: nat, cases: nat) {
    10 * passCount >= 9 * cases
  }

  // ---- rows after each kind of UPDATE --------------------------------------------------------------

  function Fresh(cls: CandidateClass, ref: string, generatedBy: string): Candidate {
    Candidate(cls, ref, Generated, generatedBy, None, None, None, None, None)
  }

  function AsCanary(c: Candidate, now: Time): Candidate {
    c.(status := Canary, canaryAt := Some(now))
  }

  function AsDemoted(c: Candidate, now: Time): Candidate {
    c.(status := Demoted, demotedAt := Some(now))
  }

  function AsPromoted(c: Candidate, now: Time, target: Option<Id>): Candidate {
    c.(status := Promoted, promotedAt := Some(now), rollbackTarget := target)
  }

  function AsRolledBack(c: Candidate, now: Time): Candidate {
    c.(status := RolledBack, rolledBackAt := Some(now))
  }

  /** The transition RecordEval makes for a candidate it read in `status`. */
  function AfterEval(status: Status, passed: bool): Status {
    match status
    case Generated => if passed then Evaluated else Rejected
    case Canary => if passed then Canary else Rejected
    case other => other
  }

  // ---- what the queries answer ---------------------------------------------------------------------

  /** Does some eval count as canary evidence? A NULL canary_at compares as the empty string: anything is
      later. */
  ghost predicate HasEvidence(t: Tables, c: Id, since: Option<Time>) {
    exists i :: 0 <= i < |t.evals| && Counts(t.evals[i], c, since)
  }

  predicate Counts(e: Eval, c: Id, since: Option<Time>) {
    e.candidate == c && e.passed && (since.Some? ==> e.at >= since.value)
  }

  predicate IsPromoted(t: Tables, x: Id, cls: CandidateClass) {
    x in t.candidates && t.candidates[x].cls == cls && t.candidates[x].status.Promoted?
  }

  /** The answer to "which other candidate of this class is promoted?". */
  ghost predicate IsPrevious(t: Tables, c: Id, cls: CandidateClass, prev: Option<Id>) {
    match prev
    case Some(p) => p != c && IsPromoted(t, p, cls)
    case None => forall x: Id :: IsPromoted(t, x, cls) ==> x == c
  }

  // ---- what whole operations do to the tables --------------------------------------------------------

  function Update(t: Tables, c: Id, row: Candidate): Tables {
    t.(candidates := t.candidates[c := row])
  }

  function Record(t: Tables, c: Id, passed: bool, now: Time): Tables
    requires c in t.candidates
  {
    var status := t.candidates[c].status;
    Tables(t.candidates[c := t.candidates[c].(status := AfterEval(status, passed))],
           t.evals + [Eval(c, passed, now, status)])
  }

  /** Promote's two UPDATEs. */
  function Promote(t: Tables, c: Id, prev: Option<Id>, now: Time): Tables
    requires c in t.candidates && (prev.Some? ==> prev.value in t.candidates)
  {
    var demoted := if prev.Some? then t.candidates[prev.value := AsDemoted(t.candidates[prev.value], now)]
                   else t.candidates;
    t.(candidates := demoted[c := AsPromoted(t.candidates[c], now, prev)])
  }

  /** Rollback's two UPDATEs. */
  function Rollback(t: Tables, c: Id, target: Id, now: Time): Tables
    requires c in t.candidates && target in t.candidates
  {
    t.(candidates := t.candidates[c := AsRolledBack(t.candidates[c], now)]
                                 [target := AsPromoted(t.candidates[target], now, Some(c))])
  }

  // ---- the invariant ---------------------------------------------------------------------------------

  /** Has been promoted at some time. */
  predicate OnceLive(s: Status) {
    s.Promoted? || s.Demoted? || s.RolledBack?
  }

  ghost predicate OnePromoted(t: Tables) {
    forall cls, x: Id, y: Id :: IsPromoted(t, x, cls) && IsPromoted(t, y, cls) ==> x == y
  }

  /** A rollback target is a different, same-class, once-promoted candidate. */
  predicate TargetOk(t: Tables, x: Id)
    requires x in t.candidates
  {
    var row := t.candidates[x];
    row.rollbackTarget.Some? ==>
      var p := row.rollbackTarget.value;
      && OnceLive(row.status)
      && p != x && p in t.candidates && t.candidates[p].cls == row.cls && OnceLive(t.candidates[p].status)
  }

  /** Nothing that is still in the running failed while it was generated or in canary; what has entered canary
      says when, and what has been promoted had evidence from then on. */
  ghost predicate EvidenceOk(t: Tables, x: Id)
    requires x in t.candidates
  {
    var row := t.candidates[x];
    && (!row.status.Rejected? ==> NeverFailedEarly(t, x))
    && (row.status.Canary? || OnceLive(row.status) ==> row.canaryAt.Some?)
    && (OnceLive(row.status) ==> HasEvidence(t, x, row.canaryAt))
  }

  ghost predicate NeverFailedEarly(t: Tables, x: Id) {
    forall i :: 0 <= i < |t.evals| && t.evals[i].candidate == x ==>
      t.evals[i].during.Generated? || t.evals[i].during.Canary? ==> t.evals[i].passed
  }

  ghost predicate Sound(t: Tables) {
    && OnePromoted(t)
    && (forall x :: x in t.candidates ==> TargetOk(t, x))
    && (forall x :: x in t.candidates ==> EvidenceOk(t, x))
    && (forall i :: 0 <= i < |t.evals| ==> t.evals[i].candidate in t.candidates)
  }

  /** What nobody takes back: rows and evals stay, a class is for ever, and so is having been promoted. */
  ghost predicate Extends(a: Tables, b: Tables) {
    && (forall x :: x in a.candidates ==>
          && x in b.candidates && b.candidates[x].cls == a.candidates[x].cls
          && (OnceLive(a.candidates[x].status) ==> OnceLive(b.candidates[x].status)))
    && a.evals <= b.evals
  }

  lemma EvidenceLasts(a: Tables, b: Tables, x: Id, since: Option<Time>)
    requires a.evals <= b.evals && HasEvidence(a, x, since)
    ensures HasEvidence(b, x, since)
  {
    var i :| 0 <= i < |a.evals| && Counts(a.evals[i], x, since);
    assert Counts(b.evals[i], x, since);
  }

  /** The rows that a statement leaves as they were stay sound. */
  lemma RowLasts(a: Tables, b: Tables, x: Id)
    requires x in a.candidates && TargetOk(a, x) && EvidenceOk(a, x) && Extends(a, b)
    requires b.candidates[x] == a.candidates[x]
    requires NeverFailedEarly(a, x) ==> NeverFailedEarly(b, x)
    ensures TargetOk(b, x) && EvidenceOk(b, x)
  {
    if OnceLive(a.candidates[x].status) {
      EvidenceLasts(a, b, x, a.candidates[x].canaryAt);
    }
  }

  lemma NothingNewPromoted(t: Tables, u: Tables)
    requires OnePromoted(t)
    requires forall x: Id :: x in u.candidates && u.candidates[x].status.Promoted? ==>
      x in t.candidates && t.candidates[x].status.Promoted? && t.candidates[x].cls == u.candidates[x].cls
    ensures OnePromoted(u)
  {
    forall cls, x: Id | IsPromoted(u, x, cls) ensures IsPromoted(t, x, cls) {
    }
  }

  lemma GenerateIsSound(t: Tables, c: Id, cls: CandidateClass, ref: string, generatedBy: string)
    requires Sound(t) && c !in t.candidates
    ensures var u := Update(t, c, Fresh(cls, ref, generatedBy)); Sound(u) && Extends(t, u)
  {
    var u := Update(t, c, Fresh(cls, ref, generatedBy));
    NothingNewPromoted(t, u);
    forall x | x in t.candidates { RowLasts(t, u, x); }
  }

  lemma CanaryIsSound(t: Tables, c: Id, now: Time)
    requires Sound(t) && c in t.candidates && t.candidates[c].status.Evaluated?
    ensures var u := Update(t, c, AsCanary(t.candidates[c], now)); Sound(u) && Extends(t, u)
  {
    var u := Update(t, c, AsCanary(t.candidates[c], now));
    NothingNewPromoted(t, u);
    forall x | x in t.candidates && x != c { RowLasts(t, u, x); }
    assert EvidenceOk(t, c) && TargetOk(t, c);
  }

  lemma DemoteIsSound(t: Tables, c: Id, now: Time)
    requires Sound(t) && c in t.candidates && t.candidates[c].status.Promoted?
    ensures var u := Update(t, c, AsDemoted(t.candidates[c], now)); Sound(u) && Extends(t, u)
  {
    var u := Update(t, c, AsDemoted(t.candidates[c], now));
    NothingNewPromoted(t, u);
    forall x | x in t.candidates && x != c { RowLasts(t, u, x); }
    assert EvidenceOk(t, c) && TargetOk(t, c);
    EvidenceLasts(t, u, c, t.candidates[c].canaryAt);
  }

  lemma RejectIsSound(t: Tables, c: Id)
    requires Sound(t) && c in t.candidates
    requires t.candidates[c].status.Generated? || t.candidates[c].status.Evaluated? || t.candidates[c].status.Canary?
    ensures var u := Update(t, c, t.candidates[c].(status := Rejected)); Sound(u) && Extends(t, u)
  {
    var u := Update(t, c, t.candidates[c].(status := Rejected));
    NothingNewPromoted(t, u);
    forall x | x in t.candidates && x != c { RowLasts(t, u, x); }
    assert TargetOk(t, c);
  }

  /** The evaluated candidate itself: a failure while it was generated or in canary rejects it. */
  lemma RecordedIsJudged(t: Tables, c: Id, passed: bool, now: Time)
    requires c in t.candidates && EvidenceOk(t, c) && TargetOk(t, c)
    ensures EvidenceOk(Record(t, c, passed, now), c) && TargetOk(Record(t, c, passed, now), c)
  {
    if OnceLive(t.candidates[c].status) {
      EvidenceLasts(t, Record(t, c, passed, now), c, t.candidates[c].canaryAt);
    }
  }

  lemma RecordIsSound(t: Tables, c: Id, passed: bool, now: Time)
    requires Sound(t) && c in t.candidates
    ensures var u := Record(t, c, passed, now); Sound(u) && Extends(t, u)
  {
    var u := Record(t, c, passed, now);
    NothingNewPromoted(t, u);
    RecordedIsJudged(t, c, passed, now);
    forall x | x in t.candidates && x != c { RowLasts(t, u, x); }
  }

  /** Two writes inside one class leave at most one promoted in it, and no other class notices. */
  lemma PromoteLeavesOne(t: Tables, c: Id, cls: CandidateClass, prev: Option<Id>, now: Time)
    requires OnePromoted(t) && c in t.candidates && t.candidates[c].cls == cls
    requires forall x: Id :: IsPromoted(t, x, cls) ==> prev == Some(x)
    requires prev.Some? ==> prev.value != c && prev.value in t.candidates && t.candidates[prev.value].cls == cls
    ensures var u := Promote(t, c, prev, now); OnePromoted(u) && IsPromoted(u, c, cls)
  {
    var u := Promote(t, c, prev, now);
    forall k, x: Id | IsPromoted(u, x, k) ensures if k == cls then x == c else IsPromoted(t, x, k) {
      assert x != c && Some(x) != prev ==> IsPromoted(t, x, k);
    }
  }

  /** The promoted row has its evidence and a proper target; so has the row it replaces. */
  lemma PromotedRowsAreOk(t: Tables, c: Id, cls: CandidateClass, prev: Option<Id>, now: Time)
    requires c in t.candidates && t.candidates[c].cls == cls && t.candidates[c].status.Canary?
    requires HasEvidence(t, c, t.candidates[c].canaryAt) && EvidenceOk(t, c)
    requires prev.Some? ==> prev.value != c && prev.value in t.candidates && t.candidates[prev.value].cls == cls
                            && OnceLive(t.candidates[prev.value].status)
                            && EvidenceOk(t, prev.value) && TargetOk(t, prev.value)
    ensures var u := Promote(t, c, prev, now);
      && EvidenceOk(u, c) && TargetOk(u, c) && Extends(t, u)
      && (prev.Some? ==> EvidenceOk(u, prev.value) && TargetOk(u, prev.value))
  {
  }

  lemma PromoteIsSound(t: Tables, c: Id, cls: CandidateClass, prev: Option<Id>, now: Time)
    requires Sound(t) && c in t.candidates && t.candidates[c].cls == cls && t.candidates[c].status.Canary?
    requires HasEvidence(t, c, t.candidates[c].canaryAt)
    requires forall x: Id :: IsPromoted(t, x, cls) ==> prev == Some(x)
    requires prev.Some? ==> prev.value != c && prev.value in t.candidates && t.candidates[prev.value].cls == cls
                            && OnceLive(t.candidates[prev.value].status)
    ensures var u := Promote(t, c, prev, now); Sound(u) && Extends(t, u) && IsPromoted(u, c, cls)
  {
    var u := Promote(t, c, prev, now);
    PromoteLeavesOne(t, c, cls, prev, now);
    PromotedRowsAreOk(t, c, cls, prev, now);
    forall x | x in t.candidates && x != c && Some(x) != prev { RowLasts(t, u, x); }
  }

  lemma RollbackLeavesOne(t: Tables, c: Id, cls: CandidateClass, target: Id, now: Time)
    requires c in t.candidates && t.candidates[c].cls == cls
    requires target in t.candidates && target != c && t.candidates[target].cls == cls
    requires OnePromoted(t) && forall x: Id :: !IsPromoted(t, x, cls)
    ensures var u := Rollback(t, c, target, now); OnePromoted(u) && IsPromoted(u, target, cls)
  {
    var u := Rollback(t, c, target, now);
    forall k, x: Id | IsPromoted(u, x, k) ensures if k == cls then x == target else IsPromoted(t, x, k) {
      assert x != c && x != target ==> IsPromoted(t, x, k);
    }
  }

  lemma RollbackIsSound(t: Tables, c: Id, cls: CandidateClass, target: Id, now: Time)
    requires Sound(t) && c in t.candidates && t.candidates[c].cls == cls && t.candidates[c].status.Demoted?
    requires t.candidates[c].rollbackTarget == Some(target)
    requires forall x: Id :: !IsPromoted(t, x, cls)
    ensures target in t.candidates && target != c && t.candidates[target].cls == cls
    ensures var u := Rollback(t, c, target, now); Sound(u) && Extends(t, u) && IsPromoted(u, target, cls)
  {
    assert EvidenceOk(t, c) && TargetOk(t, c);
    assert EvidenceOk(t, target) && TargetOk(t, target);
    var u := Rollback(t, c, target, now);
    RollbackLeavesOne(t, c, cls, target, now);
    assert Extends(t, u);
    forall x | x in t.candidates && x != c && x != target { RowLasts(t, u, x); }
  }
}
