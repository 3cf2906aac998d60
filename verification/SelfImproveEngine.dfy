/** The self-improvement engine as an object over its two tables, one call at a time. SelfImproveRuns
    interleaves the same statements. */
module SelfImproveEngine {
  import opened Wrappers
  import opened SelfImprove

  // ---- what each call does, as one transaction --------------------------------------------------------

  type Outcome = (Tables, Result<(), Error>)

  function GenerateCall(t: Tables, cls: CandidateClass, ref: string, generatedBy: string, id: Id): Outcome {
    if cls.Unrecognised? then (t, Failure(InvalidClass))
    else if ref == "" then (t, Failure(RefRequired))
    else (Update(t, id, Fresh(cls, ref, generatedBy)), Success(()))
  }

  function RecordEvalCall(t: Tables, c: Id, results: seq<bool>, now: Time): Outcome {
    if results == [] then (t, Failure(NoCases))
    else if c !in t.candidates then (t, Failure(NotFound))
    else (Record(t, c, Passes(PassCount(results), |results|), now), Success(()))
  }

  function CanaryCall(t: Tables, c: Id, now: Time): Outcome {
    if c !in t.candidates then (t, Failure(NotFound))
    else if !t.candidates[c].status.Evaluated? then (t, Failure(InvalidTransition))
    else (Update(t, c, AsCanary(t.candidates[c], now)), Success(()))
  }

  function DemoteCall(t: Tables, c: Id, now: Time): Outcome {
    if c !in t.candidates then (t, Failure(NotFound))
    else if !t.candidates[c].status.Promoted? then (t, Failure(InvalidTransition))
    else (Update(t, c, AsDemoted(t.candidates[c], now)), Success(()))
  }

  function RejectCall(t: Tables, c: Id): Outcome {
    if c !in t.candidates then (t, Failure(NotFound))
    else
      var s := t.candidates[c].status;
      if !(s.Generated? || s.Evaluated? || s.Canary?) then (t, Failure(InvalidTransition))
      else (Update(t, c, t.candidates[c].(status := Rejected)), Success(()))
  }

  ghost function PreviousOf(t: Tables, c: Id): Option<Id>
    requires c in t.candidates
  {
    if p: Id :| p != c && IsPromoted(t, p, t.candidates[c].cls) then Some(p) else None
  }

  ghost function PromoteCall(t: Tables, c: Id, now: Time): Outcome {
    if c !in t.candidates then (t, Failure(NotFound))
    else if !t.candidates[c].status.Canary? then (t, Failure(InvalidTransition))
    else if !HasEvidence(t, c, t.candidates[c].canaryAt) then (t, Failure(NoCanaryEvidence))
    else (Promote(t, c, PreviousOf(t, c), now), Success(()))
  }

  ghost function RollbackCall(t: Tables, c: Id, now: Time): Outcome {
    if c !in t.candidates then (t, Failure(NotFound))
    else
      var row := t.candidates[c];
      if !row.status.Demoted? then (t, Failure(InvalidTransition))
      else if row.rollbackTarget.None? then (t, Failure(NoRollbackTarget))
      else if exists x: Id :: IsPromoted(t, x, row.cls) then (t, Failure(RollbackBlocked))
      // The foreign key on rollback_target_id guarantees the row.
      else if row.rollbackTarget.value !in t.candidates then (t, Failure(NotFound))
      else (Rollback(t, c, row.rollbackTarget.value, now), Success(()))
  }

  /** The partial unique index leaves only one answer to the query for the previously promoted candidate. */
  lemma PreviousIsUnique(t: Tables, c: Id, p: Option<Id>)
    requires OnePromoted(t) && c in t.candidates && t.candidates[c].status.Canary?
    requires IsPrevious(t, c, t.candidates[c].cls, p)
    ensures p == PreviousOf(t, c)
    ensures forall x: Id :: IsPromoted(t, x, t.candidates[c].cls) ==> p == Some(x)
  {
  }

  class Engine {
    var candidates: map<Id, Candidate>
    var evals: seq<Eval>

    function Contents(): Tables
      reads this
    {
      Tables(candidates, evals)
    }

    ghost predicate Valid()
      reads this
    {
      Sound(Contents())
    }

    constructor ()
      ensures Valid() && Contents() == Tables(map[], [])
    {
      candidates, evals := map[], [];
    }

    method Generate(cls: CandidateClass, ref: string, generatedBy: string, id: Id) returns (r: Result<(), Error>)
      requires Valid() && id !in candidates
      modifies this
      ensures Valid() && (Contents(), r) == GenerateCall(old(Contents()), cls, ref, generatedBy, id)
    {
      if cls.Unrecognised? {
        return Failure(InvalidClass);
      }
      if ref == "" {
        return Failure(RefRequired);
      }
      GenerateIsSound(Contents(), id, cls, ref, generatedBy);
      candidates := candidates[id := Fresh(cls, ref, generatedBy)];
      return Success(());
    }

    /** Counts the passes, judges them against the fixed threshold, and records the verdict with whatever
        transition it causes. */
    method RecordEval(c: Id, results: seq<bool>, now: Time) returns (r: Result<(), Error>)
      requires Valid()
      modifies this
      ensures Valid() && (Contents(), r) == RecordEvalCall(old(Contents()), c, results, now)
    {
      if |results| == 0 {
        return Failure(NoCases);
      }
      var passCount := 0;
      for i := 0 to |results|
        invariant passCount == PassCount(results[..i])
      {
        assert results[..i + 1][..i] == results[..i];
        if results[i] {
          passCount := passCount + 1;
        }
      }
      assert results[..|results|] == results;
      var passed := Passes(passCount, |results|);
      if c !in candidates {
        return Failure(NotFound);
      }
      RecordIsSound(Contents(), c, passed, now);
      var status := candidates[c].status;
      evals := evals + [Eval(c, passed, now, status)];
      var next := status;
      if status == Generated {
        next := if passed then Evaluated else Rejected;
      } else if status == SelfImprove.Canary && !passed {
        next := Rejected;
      }
      candidates := candidates[c := candidates[c].(status := next)];
      return Success(());
    }

    method Canary(c: Id, now: Time) returns (r: Result<(), Error>)
      requires Valid()
      modifies this
      ensures Valid() && (Contents(), r) == CanaryCall(old(Contents()), c, now)
    {
      if c in candidates && candidates[c].status == Evaluated {
        CanaryIsSound(Contents(), c, now);
        candidates := candidates[c := AsCanary(candidates[c], now)];
        return Success(());
      }
      if c !in candidates {
        return Failure(NotFound);
      }
      return Failure(InvalidTransition);
    }

    method Promote(c: Id, now: Time) returns (r: Result<(), Error>)
      requires Valid()
      modifies this
      ensures Valid() && (Contents(), r) == PromoteCall(old(Contents()), c, now)
    {
      if c !in candidates {
        return Failure(NotFound);
      }
      var row := candidates[c];
      if row.status != SelfImprove.Canary {
        return Failure(InvalidTransition);
      }
      if !exists i | 0 <= i < |evals| :: Counts(evals[i], c, row.canaryAt) {
        return Failure(NoCanaryEvidence);
      }
      var previous: Option<Id> := None;
      if p :| p in candidates && p != c && IsPromoted(Contents(), p, row.cls) {
        previous := Some(p);
      }
      PreviousIsUnique(Contents(), c, previous);
      PromoteIsSound(Contents(), c, row.cls, previous, now);
      if previous.Some? {
        candidates := candidates[previous.value := AsDemoted(candidates[previous.value], now)];
      }
      candidates := candidates[c := AsPromoted(candidates[c], now, previous)];
      return Success(());
    }

    method Demote(c: Id, now: Time) returns (r: Result<(), Error>)
      requires Valid()
      modifies this
      ensures Valid() && (Contents(), r) == DemoteCall(old(Contents()), c, now)
    {
      if c in candidates && candidates[c].status == Promoted {
        DemoteIsSound(Contents(), c, now);
        candidates := candidates[c := AsDemoted(candidates[c], now)];
        return Success(());
      }
      if c !in candidates {
        return Failure(NotFound);
      }
      return Failure(InvalidTransition);
    }

    method Rollback(c: Id, now: Time) returns (r: Result<(), Error>)
      requires Valid()
      modifies this
      ensures Valid() && (Contents(), r) == RollbackCall(old(Contents()), c, now)
    {
      if c !in candidates {
        return Failure(NotFound);
      }
      var row := candidates[c];
      if row.status != Demoted {
        return Failure(InvalidTransition);
      }
      if row.rollbackTarget == None {
        return Failure(NoRollbackTarget);
      }
      if exists x | x in candidates :: IsPromoted(Contents(), x, row.cls) {
        return Failure(RollbackBlocked);
      }
      var target := row.rollbackTarget.value;
      RollbackIsSound(Contents(), c, row.cls, target, now);
      candidates := candidates[c := AsRolledBack(candidates[c], now)];
      candidates := candidates[target := AsPromoted(candidates[target], now, Some(c))];
      return Success(());
    }

    method Reject(c: Id) returns (r: Result<(), Error>)
      requires Valid()
      modifies this
      ensures Valid() && (Contents(), r) == RejectCall(old(Contents()), c)
    {
      if c !in candidates {
        return Failure(NotFound);
      }
      var status := candidates[c].status;
      if status == Generated || status == Evaluated || status == SelfImprove.Canary {
        RejectIsSound(Contents(), c);
        candidates := candidates[c := candidates[c].(status := Rejected)];
        return Success(());
      }
      return Failure(InvalidTransition);
    }
  }
}
