/** What each call to the policy engine answers and writes, case by case: when it succeeds, what it stores, and which
    error it gives first. */
module PolicyCalls {
  import opened Wrappers
  import opened Policy

  /** Exactly what is declared verified is admitted; everything else, claimed, none or nothing declared, needs approval,
      with a pending request that points back at it. */
  lemma DecideAdmitsExactlyTheVerified(t: Tables, operationId: string, text: string, reversibility: Reversibility,
                                       now: Time, id: Id, approvalId: Id)
    requires operationId != ""
    ensures var (u, r) := Decide(t, operationId, Json(text), reversibility, now, id, approvalId);
      && r == Success(id) && id in u.decisions
      && u.decisions == t.decisions[id := u.decisions[id]]
      && var d := u.decisions[id];
         && d.operationId == operationId && d.digest == Sha256(text) && d.consumedAt == None
         && d.decidedAt == now && d.expiresAt == now + 300_000
         && (reversibility == Verified ==> d.verdict == Admit && d.approvalRequest == None && u.approvals == t.approvals)
         && (reversibility != Verified ==>
               && d.verdict == NeedsApproval && d.approvalRequest == Some(approvalId)
               && u.approvals == t.approvals[approvalId := Approval(id, Pending, "", None, "")])
  {
  }

  /** Without an operation id, or for something that cannot be hashed, nothing is decided. */
  lemma DecideRefusesIncompleteRequests(t: Tables, operationId: string, payload: Payload, reversibility: Reversibility,
                                        now: Time, id: Id, approvalId: Id)
    ensures var (u, r) := Decide(t, operationId, payload, reversibility, now, id, approvalId);
      && (r.Success? <==> operationId != "" && payload != Unencodable)
      && (operationId == "" ==> r == Failure(OperationIdRequired))
      && (operationId != "" && payload == Unencodable ==> r == Failure(UnencodablePayload))
      && (r.Failure? ==> u == t)
  {
  }

  /** Consume succeeds for exactly an unconsumed, admitted decision, for its own digest, before its expiry; it stamps that
      decision and touches nothing else. */
  lemma ConsumeTakesExactlyTheValid(t: Tables, id: Id, digest: Digest, now: Time, stamp: Time)
    ensures var (u, r) := Consume(t, id, digest, now, stamp);
      && (r.Success? <==>
            && id in t.decisions && t.decisions[id].consumedAt == None
            && t.decisions[id].verdict in {Admit, AdmitWithConstraints}
            && t.decisions[id].digest == digest && now < t.decisions[id].expiresAt)
      && (r.Success? ==>
            && u.approvals == t.approvals && u.decisions.Keys == t.decisions.Keys
            && u.decisions[id].consumedAt == Some(stamp)
            && u.decisions[id].(consumedAt := None) == t.decisions[id]
            && forall d :: d in t.decisions && d != id ==> u.decisions[d] == t.decisions[d])
      && (r.Failure? ==> u == t)
  {
  }

  /** The error is that of the first thing wrong: unknown, spent, not admitted, another payload, expired. */
  lemma ConsumeNamesTheFirstFault(t: Tables, id: Id, digest: Digest, now: Time, stamp: Time)
    ensures var r := Consume(t, id, digest, now, stamp).1;
      && (r == Failure(NotFound) <==> id !in t.decisions)
      && (id in t.decisions ==>
            var d := t.decisions[id];
            && (r == Failure(AlreadyConsumed) <==> d.consumedAt != None)
            && (d.consumedAt == None ==>
                  && (r == Failure(NotAdmitted) <==> d.verdict in {NeedsApproval, Deferred, Refused})
                  && (d.verdict in {Admit, AdmitWithConstraints} ==>
                        && (r == Failure(DigestMismatch) <==> d.digest != digest)
                        && (r == Failure(Expired) <==> d.digest == digest && d.expiresAt <= now))))
  {
  }

  /** Approve mints, for a pending request only, a fresh admit decision with the original's operation and digest that is
      good for five minutes from the approval, and leaves the original as it is. */
  lemma ApproveMintsForThePending(t: Tables, a: Id, operator: string, now: Time, stamp: Time, newId: Id)
    requires a in t.approvals && t.approvals[a].decision in t.decisions && newId !in t.decisions
    ensures var (u, r) := Approve(t, a, operator, now, stamp, newId);
      && (r.Success? <==> t.approvals[a].status == Pending)
      && (r.Failure? ==> r.error == NotPending && u == t)
      && (r.Success? ==>
            && r.value == newId
            && u.approvals == t.approvals[a := Approval(t.approvals[a].decision, Approved, operator, Some(stamp),
                                                        t.approvals[a].reason)]
            && var original := t.decisions[t.approvals[a].decision];
               u.decisions == t.decisions[newId := Decision(original.operationId, original.digest, Admit, now,
                                                            now + 300_000, None, None)])
  {
  }

  /** Deny resolves a pending request only, and decides nothing. */
  lemma DenyResolvesThePending(t: Tables, a: Id, operator: string, reason: string, stamp: Time)
    ensures var (u, r) := Deny(t, a, operator, reason, stamp);
      && (r == Failure(NotFound) <==> a !in t.approvals)
      && (a in t.approvals ==> (r.Success? <==> t.approvals[a].status == Pending))
      && (a in t.approvals && r.Failure? ==> r.error == NotPending)
      && (r.Failure? ==> u == t)
      && (r.Success? ==>
            u == Tables(t.decisions,
                        t.approvals[a := Approval(t.approvals[a].decision, Denied, operator, Some(stamp), reason)]))
  {
  }

  /** An approval of an unknown request is refused and changes nothing. */
  lemma ApproveNeedsARequest(t: Tables, a: Id, operator: string, now: Time, stamp: Time, newId: Id)
    requires a !in t.approvals
    ensures Approve(t, a, operator, now, stamp, newId) == (t, Failure(NotFound))
  {
  }
}
