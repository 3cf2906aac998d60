/** The policy engine as an object whose methods update its two tables in place, each proved equal to the
    transaction Policy specifies. */
module PolicyEngine {
  import opened Wrappers
  import opened Policy

  /** The engine over the two tables. Fresh identifiers and clock readings are parameters. */
  class Engine {
    var decisions: map<Id, Decision>
    var approvals: map<Id, Approval>

    function Contents(): Tables
      reads this
    {
      Tables(decisions, approvals)
    }

    constructor ()
      ensures Contents() == Tables(map[], map[])
    {
      decisions, approvals := map[], map[];
    }

    method Decide(operationId: string, payload: Payload, reversibility: Reversibility,
                  now: Time, id: Id, approvalId: Id) returns (r: Result<Id, Error>)
      modifies this
      ensures (Contents(), r) ==
              Policy.Decide(old(Contents()), operationId, payload, reversibility, now, id, approvalId)
    {
      if operationId == "" {
        return Failure(OperationIdRequired);
      }
      var digest := DigestOf(payload);
      if digest.None? {
        return Failure(UnencodablePayload);
      }
      var verdict := NeedsApproval;
      if reversibility == Verified {
        verdict := Admit;
      }
      decisions := decisions[id := Decision(operationId, digest.value, verdict, now, now + DECISION_TTL, None, None)];
      if verdict == NeedsApproval {
        approvals := approvals[approvalId := Approval(id, Pending, "", None, "")];
        decisions := decisions[id := decisions[id].(approvalRequest := Some(approvalId))];
      }
      assert Contents().decisions == Policy.Decide(old(Contents()), operationId, payload, reversibility, now, id,
                                                   approvalId).0.decisions;
      return Success(id);
    }

    method Consume(id: Id, digest: Digest, now: Time, stamp: Time) returns (r: Result<(), Error>)
      modifies this
      ensures (Contents(), r) == Policy.Consume(old(Contents()), id, digest, now, stamp)
    {
      if id !in decisions {
        return Failure(NotFound);
      }
      var d := decisions[id];
      if d.consumedAt.Some? {
        return Failure(AlreadyConsumed);
      }
      if d.verdict != Admit && d.verdict != AdmitWithConstraints {
        return Failure(NotAdmitted);
      }
      if d.digest != digest {
        return Failure(DigestMismatch);
      }
      if d.expiresAt <= now {
        return Failure(Expired);
      }
      decisions := decisions[id := d.(consumedAt := Some(stamp))];
      return Success(());
    }

    method Approve(approvalId: Id, operator: string, now: Time, stamp: Time, newId: Id) returns (r: Result<Id, Error>)
      modifies this
      ensures (Contents(), r) == Policy.Approve(old(Contents()), approvalId, operator, now, stamp, newId)
    {
      if approvalId !in approvals {
        return Failure(NotFound);
      }
      var request := approvals[approvalId];
      if request.status != Pending {
        return Failure(NotPending);
      }
      if request.decision !in decisions {
        return Failure(NotFound);
      }
      var original := decisions[request.decision];
      approvals := approvals[approvalId := request.(status := Approved, resolvedBy := operator, resolvedAt := Some(stamp))];
      decisions := decisions[newId := Decision(original.operationId, original.digest, Admit, now,
                                               now + DECISION_TTL, None, None)];
      return Success(newId);
    }

    method Deny(approvalId: Id, operator: string, reason: string, stamp: Time) returns (r: Result<(), Error>)
      modifies this
      ensures (Contents(), r) == Policy.Deny(old(Contents()), approvalId, operator, reason, stamp)
    {
      if approvalId in approvals && approvals[approvalId].status == Pending {
        approvals := approvals[approvalId := approvals[approvalId].(status := Denied, resolvedBy := operator,
                                                                    resolvedAt := Some(stamp), reason := reason)];
        return Success(());
      }
      if approvalId !in approvals {
        return Failure(NotFound);
      }
      return Failure(NotPending);
    }
  }
}
