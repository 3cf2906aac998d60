/** The policy and approval seam (daemon/policy/policy.go): single-use decisions bound to the digest of
    one payload. Every operation of the engine is one row-locked transaction or one guarded UPDATE, so
    each is one function from the tables before to the tables after. */
module Policy {
  import opened Wrappers

  type Id = nat

  /** Milliseconds. The source stores times as fixed-width strings; Timestamps.LexIsChronological is why
      comparing those strings is comparing these numbers. */
  type Time = int

  /** DefaultDecisionTTL, five minutes. */
  const DECISION_TTL: Time := 300_000

  /** What a caller hands over to be hashed: either something with a JSON encoding or something
      json.Marshal refuses. */
  datatype Payload = Json(text: string) | Unencodable

  /** SHA-256 of the JSON text, taken to be injective. */
  datatype Digest = Sha256(text: string)

  datatype Verdict = Admit | AdmitWithConstraints | NeedsApproval | Deferred | Refused

  datatype Reversibility = Verified | Claimed | NoInverse | Unset

  datatype Decision = Decision(
    operationId: string,
    digest: Digest,
    verdict: Verdict,
    decidedAt: Time,
    expiresAt: Time,
    approvalRequest: Option<Id>,
    consumedAt: Option<Time>)

  datatype ApprovalStatus = Pending | Approved | Denied

  datatype Approval = Approval(
    decision: Id,
    status: ApprovalStatus,
    resolvedBy: string,
    resolvedAt: Option<Time>,
    reason: string)

  /** The policy_decision and approval_request tables. */
  datatype Tables = Tables(decisions: map<Id, Decision>, approvals: map<Id, Approval>)

  datatype Error =
    | NotFound
    | AlreadyConsumed
    | NotAdmitted
    | DigestMismatch
    | Expired
    | NotPending
    | OperationIdRequired
    | UnencodablePayload

  function DigestOf(payload: Payload): Option<Digest> {
    match payload
    case Json(text) => Some(Sha256(text))
    case Unencodable => None
  }

  predicate Consumable(verdict: Verdict) {
    verdict.Admit? || verdict.AdmitWithConstraints?
  }

  /** The one built-in policy: admit exactly what is declared verified. */
  function VerdictFor(reversibility: Reversibility): Verdict {
    if reversibility.Verified? then Admit else NeedsApproval
  }

  /** Decide: `id` and `approvalId` are the two fresh UUIDs. */
  function Decide(t: Tables, operationId: string, payload: Payload, reversibility: Reversibility,
                  now: Time, id: Id, approvalId: Id): (Tables, Result<Id, Error>) {
    if operationId == "" then (t, Failure(OperationIdRequired))
    else if DigestOf(payload).None? then (t, Failure(UnencodablePayload))
    else
      var verdict := VerdictFor(reversibility);
      var needs := verdict.NeedsApproval?;
      var row := Decision(operationId, DigestOf(payload).value, verdict, now, now + DECISION_TTL,
                          if needs then Some(approvalId) else None, None);
      var approvals := if needs then t.approvals[approvalId := Approval(id, Pending, "", None, "")]
                       else t.approvals;
      (Tables(t.decisions[id := row], approvals), Success(id))
  }

  /** The checks of Consume, in the source's order. */
  function ConsumeCheck(t: Tables, id: Id, digest: Digest, now: Time): Option<Error> {
    if id !in t.decisions then Some(NotFound)
    else
      var d := t.decisions[id];
      if d.consumedAt.Some? then Some(AlreadyConsumed)
      else if !Consumable(d.verdict) then Some(NotAdmitted)
      else if d.digest != digest then Some(DigestMismatch)
      else if d.expiresAt <= now then Some(Expired)
      else None
  }

  /** Consume: the expiry is checked against the daemon's clock (`now`), the row is stamped by the
      database's (`stamp`). */
  function Consume(t: Tables, id: Id, digest: Digest, now: Time, stamp: Time): (Tables, Result<(), Error>) {
    match ConsumeCheck(t, id, digest, now)
    case Some(e) => (t, Failure(e))
    case None => (t.(decisions := t.decisions[id := t.decisions[id].(consumedAt := Some(stamp))]), Success(()))
  }

  /** Approve mints a fresh admit decision for the same operation and digest; the original keeps its
      verdict. */
  function Approve(t: Tables, approvalId: Id, operator: string, now: Time, stamp: Time, newId: Id)
    : (Tables, Result<Id, Error>) {
    if approvalId !in t.approvals then (t, Failure(NotFound))
    else if !t.approvals[approvalId].status.Pending? then (t, Failure(NotPending))
    else
      var request := t.approvals[approvalId];
      // A foreign key guarantees the row; without it the query fails and the transaction is undone.
      if request.decision !in t.decisions then (t, Failure(NotFound))
      else
        var original := t.decisions[request.decision];
        var minted := Decision(original.operationId, original.digest, Admit, now, now + DECISION_TTL, None, None);
        (Tables(t.decisions[newId := minted],
                t.approvals[approvalId := request.(status := Approved, resolvedBy := operator, resolvedAt := Some(stamp))]),
         Success(newId))
  }

  function Deny(t: Tables, approvalId: Id, operator: string, reason: string, stamp: Time): (Tables, Result<(), Error>) {
    if approvalId !in t.approvals then (t, Failure(NotFound))
    else if !t.approvals[approvalId].status.Pending? then (t, Failure(NotPending))
    else
      var request := t.approvals[approvalId];
      (t.(approvals := t.approvals[approvalId := request.(status := Denied, resolvedBy := operator,
                                                          resolvedAt := Some(stamp), reason := reason)]),
       Success(()))
  }
}
