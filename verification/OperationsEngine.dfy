/** The operations engine as an object over the effect_record table and the policy engine. One caller at a
    time: EffectRuns interleaves the same reads, consumptions and updates. */
module OperationsEngine {
  import opened Wrappers
  import opened Operations
  import Policy
  import PolicyEngine

  class Engine {
    var effects: map<Id, Effect>
    const policy: PolicyEngine.Engine

    ghost function Contents(): Books
      reads this, policy
    {
      Books(policy.Contents(), effects)
    }

    constructor (policy: PolicyEngine.Engine)
      ensures effects == map[] && this.policy == policy
    {
      this.policy := policy;
      effects := map[];
    }

    /** UPDATE guarded by the row version the caller read. */
    method UpdateState(id: Id, expected: nat, tr: Transition) returns (r: Result<(), Error>)
      modifies this
      ensures (effects, r) == Operations.UpdateState(old(effects), id, expected, tr)
    {
      if id in effects && effects[id].rowVersion == expected {
        effects := effects[id := Moved(tr, effects[id])];
        return Success(());
      }
      return Failure(InvalidTransition);
    }

    /** Propose: decide, then insert the row that refers to the decision, then read it back. */
    method Propose(req: Request, now: Policy.Time, id: Id, decision: Id, approval: Id, refused: Refused)
      returns (r: Result<Effect, Error>)
      modifies this, policy
      ensures (Contents(), r) == ProposeCall(old(Contents()), req, now, id, decision, approval, refused)
    {
      if req.operationId == "" || req.owner == "" || req.effectType == "" || req.retryClass == Unrecognised {
        return Failure(InvalidRequest);
      }
      if refused == Deciding && Policy.DigestOf(req.payload).Some? {
        return Failure(Unavailable);
      }
      var d := policy.Decide(req.operationId, req.payload, req.reversibility, now, decision, approval);
      if d.Failure? {
        return Failure(PolicyRefused(d.error));
      }
      var decided := policy.decisions[decision];
      var state := Rejected;
      if decided.verdict == Policy.Admit || decided.verdict == Policy.AdmitWithConstraints {
        state := Admitted;
      } else if decided.verdict == Policy.NeedsApproval {
        state := NeedsApproval;
      }
      if refused == Writing {
        return Failure(Unavailable);
      }
      effects := effects[id := Effect(req.operationId, req.owner, req.effectType, decision, state, decided.digest,
                                      req.retryClass, "", "", None, 0)];
      return Reloaded(effects[id], refused);
    }

    /** MarkDispatchPending: read, hash what is about to ship, consume the decision for that digest, only then move,
        and read the row back. */
    method MarkDispatchPending(id: Id, payload: Policy.Payload, now: Policy.Time, stamp: Policy.Time, refused: Refused)
      returns (r: Result<Effect, Error>)
      modifies this, policy
      ensures (Contents(), r) == DispatchPendingCall(old(Contents()), id, payload, now, stamp, refused)
    {
      if refused == Reading {
        return Failure(Unavailable);
      }
      if id !in effects {
        return Failure(NotFound);
      }
      var eff := effects[id];
      if eff.state != Admitted {
        return Failure(InvalidTransition);
      }
      var digest := Policy.DigestOf(payload);
      if digest.None? {
        return Failure(UnencodablePayload);
      }
      if refused == Deciding {
        return Failure(Unavailable);
      }
      var c := policy.Consume(eff.decision, digest.value, now, stamp);
      if c.Failure? {
        return Failure(PolicyRefused(c.error));
      }
      if refused == Writing {
        return Failure(Unavailable);
      }
      var u := UpdateState(id, eff.rowVersion, Operations.MarkDispatchPending(payload));
      match u {
        case Failure(e) => return Failure(e);
        case Success(_) =>
      }
      return Reloaded(effects[id], refused);
    }

    /** MarkDispatched, MarkObserved, MarkOutcomeUnknown and Resolve: read, guard, update, read back. */
    method Mark(id: Id, tr: Transition, refused: Refused) returns (r: Result<Effect, Error>)
      requires !tr.MarkDispatchPending?
      modifies this
      ensures (Contents(), r) == MarkCall(old(Contents()), id, tr, refused)
    {
      if tr.Resolve? && !IsTerminal(tr.terminal) {
        return Failure(NotTerminal);
      }
      if refused == Reading {
        return Failure(Unavailable);
      }
      if id !in effects {
        return Failure(NotFound);
      }
      var eff := effects[id];
      var g := Guard(tr, eff.state);
      if g.Some? {
        return Failure(g.value);
      }
      if refused == Writing {
        return Failure(Unavailable);
      }
      var u := UpdateState(id, eff.rowVersion, tr);
      match u {
        case Failure(e) => return Failure(e);
        case Success(_) =>
      }
      return Reloaded(effects[id], refused);
    }

    /** The ids recorded as dispatched, each once. */
    method DispatchedIds() returns (ids: seq<Id>)
      ensures Enumerates(ids, effects)
    {
      ids := [];
      var unread := effects.Keys;
      while unread != {}
        invariant unread <= effects.Keys
        invariant forall i, j :: 0 <= i < j < |ids| ==> ids[i] != ids[j]
        invariant forall id :: id in ids <==> id in effects && id !in unread && effects[id].state.Dispatched?
        decreases |unread|
      {
        var id :| id in unread;
        if effects[id].state == Dispatched {
          ids := ids + [id];
        }
        unread := unread - {id};
      }
    }

    /** ReconcileInterrupted: collect the ids recorded as dispatched, then mark each. With nobody else
        running it cannot fail, it changes exactly those rows, and it reports each of them once. */
    method ReconcileInterrupted() returns (r: Result<seq<Effect>, Error>, ghost ids: seq<Id>)
      modifies this
      ensures Enumerates(ids, old(effects))
      ensures effects == AllReconciled(old(effects))
      ensures r.Success? && |r.value| == |ids|
      ensures forall k :: 0 <= k < |ids| ==> r.value[k] == effects[ids[k]]
    {
      var found := DispatchedIds();
      ids := found;
      var out := [];
      for k := 0 to |found|
        invariant effects.Keys == old(effects).Keys
        invariant forall id :: id in effects && id !in found ==> effects[id] == old(effects)[id]
        invariant forall j :: k <= j < |found| ==> effects[found[j]] == old(effects)[found[j]]
        invariant forall j :: 0 <= j < k ==> effects[found[j]] == Moved(MarkOutcomeUnknown, old(effects)[found[j]])
        invariant |out| == k
        invariant forall j :: 0 <= j < k ==> out[j] == effects[found[j]]
      {
        assert found[k] in found;
        var eff := Mark(found[k], MarkOutcomeUnknown, Nothing);
        match eff {
          case Failure(e) => return Failure(e), ids;
          case Success(e) => out := out + [e];
        }
      }
      return Success(out), ids;
    }
  }

  /** `ids` lists every dispatched effect exactly once. */
  ghost predicate Enumerates(ids: seq<Id>, effects: map<Id, Effect>) {
    && (forall i, j :: 0 <= i < j < |ids| ==> ids[i] != ids[j])
    && (forall id :: id in ids <==> id in effects && effects[id].state.Dispatched?)
  }
}
