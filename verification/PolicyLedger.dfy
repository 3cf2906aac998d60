/** Runs of the policy engine: Decide, Consume, Approve and Deny from any number of callers, in any order
    and with any clock readings. Each call is one transaction, so a run is a sequence of calls. */
module PolicyLedger {
  import opened Wrappers
  import opened Policy

  /** One successful Consume: what was consumed, for which digest, and what the daemon's clock said. */
  datatype Consumption = Consumption(decision: Id, digest: Digest, checkedAt: Time)

  /** The tables, with the history a claim about whole runs needs: which decisions Approve minted and for
      which request, what was declared of every other one, and every consumption in commit order. */
  datatype Ledger = Ledger(
    tables: Tables, minted: map<Id, Id>, declared: map<Id, Reversibility>, consumptions: seq<Consumption>)

  const EMPTY := Ledger(Tables(map[], map[]), map[], map[], [])

  datatype Call =
    | Decide(operationId: string, payload: Payload, reversibility: Reversibility, now: Time, id: Id, approvalId: Id)
    | Consume(id: Id, digest: Digest, now: Time, stamp: Time)
    | Approve(approvalId: Id, operator: string, now: Time, stamp: Time, newId: Id)
    | Deny(approvalId: Id, operator: string, reason: string, stamp: Time)

  /** New identifiers are UUIDs: never one already in use. */
  predicate FreshIds(l: Ledger, c: Call) {
    match c
    case Decide(_, _, _, _, id, approvalId) => id !in l.tables.decisions && approvalId !in l.tables.approvals
    case Approve(_, _, _, _, newId) => newId !in l.tables.decisions && newId !in l.minted
    case _ => true
  }

  /** One call, success or error. A call with a reused identifier does not exist and changes nothing. */
  function Next(l: Ledger, c: Call): Ledger {
    if !FreshIds(l, c) then l
    else
      match c
      case Decide(op, payload, reversibility, now, id, approvalId) =>
        var (t, r) := Policy.Decide(l.tables, op, payload, reversibility, now, id, approvalId);
        if r.Success? then l.(tables := t, declared := l.declared[id := reversibility]) else l
      case Consume(id, digest, now, stamp) =>
        var (t, r) := Policy.Consume(l.tables, id, digest, now, stamp);
        if r.Success? then l.(tables := t, consumptions := l.consumptions + [Consumption(id, digest, now)])
        else l
      case Approve(approvalId, operator, now, stamp, newId) =>
        var (t, r) := Policy.Approve(l.tables, approvalId, operator, now, stamp, newId);
        if r.Success? then l.(tables := t, minted := l.minted[newId := approvalId]) else l
      case Deny(approvalId, operator, reason, stamp) =>
        l.(tables := Policy.Deny(l.tables, approvalId, operator, reason, stamp).0)
  }

  function Run(l: Ledger, calls: seq<Call>): Ledger
    decreases |calls|
  {
    if calls == [] then l else Run(Next(l, calls[0]), calls[1..])
  }

  /** Every event of a run with a fresh identifier is the engine's call on the tables as they are then. */
  lemma EventsAreCalls(l: Ledger, c: Call)
    requires FreshIds(l, c)
    ensures Next(l, c).tables ==
      match c
      case Decide(op, payload, reversibility, now, id, approvalId) =>
        Policy.Decide(l.tables, op, payload, reversibility, now, id, approvalId).0
      case Consume(id, digest, now, stamp) => Policy.Consume(l.tables, id, digest, now, stamp).0
      case Approve(a, operator, now, stamp, newId) => Policy.Approve(l.tables, a, operator, now, stamp, newId).0
      case Deny(a, operator, reason, stamp) => Policy.Deny(l.tables, a, operator, reason, stamp).0
  {
  }

  /** A request belongs to the needs_approval decision that points back at it. */
  predicate RequestBound(t: Tables, a: Id)
    requires a in t.approvals
  {
    var d := t.approvals[a].decision;
    d in t.decisions && t.decisions[d].verdict.NeedsApproval? && t.decisions[d].approvalRequest == Some(a)
  }

  /** A minted decision is an admit with the terms of the decision its approved request was for. */
  predicate MintBound(t: Tables, d: Id, request: Id) {
    && d in t.decisions && t.decisions[d].verdict.Admit?
    && request in t.approvals && t.approvals[request].status.Approved?
    && var original := t.approvals[request].decision;
       && original in t.decisions
       && t.decisions[d].operationId == t.decisions[original].operationId
       && t.decisions[d].digest == t.decisions[original].digest
  }

  /** A consumption was of an admitted row, for the row's own digest and before its expiry. */
  predicate ConsumptionSound(t: Tables, c: Consumption) {
    && c.decision in t.decisions
    && var d := t.decisions[c.decision];
       d.consumedAt.Some? && Consumable(d.verdict) && d.digest == c.digest && c.checkedAt < d.expiresAt
  }

  ghost predicate WasConsumed(l: Ledger, d: Id) {
    exists i :: 0 <= i < |l.consumptions| && l.consumptions[i].decision == d
  }

  /** Requests and mints are bound to their decisions, and no request has minted two. */
  ghost predicate LineageInv(l: Ledger) {
    && (forall a :: a in l.tables.approvals ==> RequestBound(l.tables, a))
    && (forall d :: d in l.minted ==> MintBound(l.tables, d, l.minted[d]))
    && (forall d, d' :: d in l.minted && d' in l.minted && l.minted[d] == l.minted[d'] ==> d == d')
  }

  /** The consumptions are exactly the consumed rows, once each. */
  ghost predicate ConsumptionInv(l: Ledger) {
    && (forall i :: 0 <= i < |l.consumptions| ==> ConsumptionSound(l.tables, l.consumptions[i]))
    && (forall i, j :: 0 <= i < j < |l.consumptions| ==> l.consumptions[i].decision != l.consumptions[j].decision)
    && (forall d :: d in l.tables.decisions && l.tables.decisions[d].consumedAt.Some? ==> WasConsumed(l, d))
  }

  /** Every decision was decided on a declaration or minted, and a decided one is an admit exactly if what was declared is
      verified. */
  ghost predicate DeclarationInv(l: Ledger) {
    && (forall d :: d in l.tables.decisions ==> (d in l.declared <==> d !in l.minted))
    && (forall d :: d in l.declared ==>
          d in l.tables.decisions && l.tables.decisions[d].verdict == if l.declared[d] == Verified then Admit else NeedsApproval)
    && (forall d :: d in l.minted ==> d in l.tables.decisions)
  }

  ghost predicate Inv(l: Ledger) {
    LineageInv(l) && ConsumptionInv(l) && DeclarationInv(l)
  }

  /** Everything about a decision except whether it has been consumed; a consumption is final. */
  predicate SameTerms(a: Decision, b: Decision) {
    && a.operationId == b.operationId && a.digest == b.digest && a.verdict == b.verdict
    && a.decidedAt == b.decidedAt && a.expiresAt == b.expiresAt && a.approvalRequest == b.approvalRequest
    && (a.consumedAt.Some? ==> b.consumedAt == a.consumedAt)
  }

  /** A request stays with its decision, and a resolution is final. */
  predicate SameRequest(a: Approval, b: Approval) {
    a.decision == b.decision && (!a.status.Pending? ==> a == b)
  }

  /** What no later call takes back. */
  ghost predicate Grows(l: Ledger, m: Ledger) {
    && (forall d :: d in l.tables.decisions ==>
          d in m.tables.decisions && SameTerms(l.tables.decisions[d], m.tables.decisions[d]))
    && (forall a :: a in l.tables.approvals ==>
          a in m.tables.approvals && SameRequest(l.tables.approvals[a], m.tables.approvals[a]))
    && (forall d :: d in l.minted ==> d in m.minted && m.minted[d] == l.minted[d])
    && (forall d :: d in l.declared ==> d in m.declared && m.declared[d] == l.declared[d])
    && l.consumptions <= m.consumptions
  }

  lemma GrowsTransitively(l: Ledger, m: Ledger, n: Ledger)
    requires Grows(l, m) && Grows(m, n)
    ensures Grows(l, n)
  {
  }

  /** A call never touches a declaration that was made. */
  lemma NextGrows(l: Ledger, c: Call)
    requires forall d :: d in l.declared ==> d in l.tables.decisions
    ensures Grows(l, Next(l, c))
  {
  }

  /** What is bound stays bound. */
  lemma BoundStays(l: Ledger, m: Ledger, a: Id)
    requires a in l.tables.approvals && RequestBound(l.tables, a) && Grows(l, m)
    ensures RequestBound(m.tables, a)
  {
  }

  lemma MintStays(l: Ledger, m: Ledger, d: Id, request: Id)
    requires MintBound(l.tables, d, request) && Grows(l, m)
    ensures MintBound(m.tables, d, request)
  {
  }

  lemma NewRequestIsBound(l: Ledger, c: Call, a: Id)
    requires a in Next(l, c).tables.approvals && a !in l.tables.approvals
    ensures RequestBound(Next(l, c).tables, a)
  {
  }

  lemma NewMintIsBound(l: Ledger, c: Call, d: Id)
    requires d in Next(l, c).minted && d !in l.minted
    requires forall a :: a in l.tables.approvals ==> RequestBound(l.tables, a)
    ensures MintBound(Next(l, c).tables, d, Next(l, c).minted[d])
    ensures forall x :: x in l.minted && MintBound(l.tables, x, l.minted[x]) ==> l.minted[x] != Next(l, c).minted[d]
    ensures forall x :: x in Next(l, c).minted ==> x == d || x in l.minted
  {
  }

  lemma NextKeepsLineage(l: Ledger, c: Call)
    requires LineageInv(l) && DeclarationInv(l)
    ensures LineageInv(Next(l, c))
  {
    NextGrows(l, c);
    var m := Next(l, c);
    forall a | a in m.tables.approvals ensures RequestBound(m.tables, a) {
      if a in l.tables.approvals { BoundStays(l, m, a); } else { NewRequestIsBound(l, c, a); }
    }
    forall d | d in m.minted ensures MintBound(m.tables, d, m.minted[d]) {
      if d in l.minted { MintStays(l, m, d, l.minted[d]); } else { NewMintIsBound(l, c, d); }
    }
    forall d, d' | d in m.minted && d' in m.minted && m.minted[d] == m.minted[d'] ensures d == d' {
      if d !in l.minted { NewMintIsBound(l, c, d); } else if d' !in l.minted { NewMintIsBound(l, c, d'); }
    }
  }

  lemma NextKeepsDeclarations(l: Ledger, c: Call)
    requires DeclarationInv(l)
    ensures DeclarationInv(Next(l, c))
  {
  }

  lemma ConsumedIsRecorded(l: Ledger, c: Call, d: Id)
    requires ConsumptionInv(l) && d in Next(l, c).tables.decisions && Next(l, c).tables.decisions[d].consumedAt.Some?
    ensures WasConsumed(Next(l, c), d)
  {
    var m := Next(l, c);
    if d in l.tables.decisions && l.tables.decisions[d].consumedAt.Some? {
      var i :| 0 <= i < |l.consumptions| && l.consumptions[i].decision == d;
      assert m.consumptions[i].decision == d;
    } else {
      assert m.consumptions[|l.consumptions|].decision == d;
    }
  }

  lemma NextKeepsConsumptions(l: Ledger, c: Call)
    requires ConsumptionInv(l) && DeclarationInv(l)
    ensures ConsumptionInv(Next(l, c))
  {
    NextGrows(l, c);
    var m := Next(l, c);
    forall d | d in m.tables.decisions && m.tables.decisions[d].consumedAt.Some? ensures WasConsumed(m, d) {
      ConsumedIsRecorded(l, c, d);
    }
  }

  /** Every call keeps the ledger's invariant and takes nothing back. */
  lemma NextKeepsInv(l: Ledger, c: Call)
    requires Inv(l)
    ensures Inv(Next(l, c)) && Grows(l, Next(l, c))
  {
    NextGrows(l, c);
    NextKeepsLineage(l, c);
    NextKeepsConsumptions(l, c);
    NextKeepsDeclarations(l, c);
  }

  lemma {:induction false} RunKeepsInv(l: Ledger, calls: seq<Call>)
    requires Inv(l)
    ensures Inv(Run(l, calls)) && Grows(l, Run(l, calls))
    decreases |calls|
  {
    if calls != [] {
      NextKeepsInv(l, calls[0]);
      RunKeepsInv(Next(l, calls[0]), calls[1..]);
      GrowsTransitively(l, Next(l, calls[0]), Run(l, calls));
    }
  }

  /** The Decide call a decision descends from: itself, or the decision whose approval minted it. */
  function Root(l: Ledger, d: Id): Id {
    if d in l.minted && l.minted[d] in l.tables.approvals then l.tables.approvals[l.minted[d]].decision else d
  }

  /** Each Decide authorises at most one dispatch. Over every run, however Approve, Deny and Consume race:
      two different consumptions never descend from the same Decide, each was of an admitted, unexpired
      decision and for that decision's digest, and that digest is the one the original Decide hashed. */
  lemma EachDecideAuthorisesAtMostOneConsume(calls: seq<Call>)
    ensures var l := Run(EMPTY, calls);
      && (forall i, j :: 0 <= i < j < |l.consumptions| ==>
            Root(l, l.consumptions[i].decision) != Root(l, l.consumptions[j].decision))
      && (forall i :: 0 <= i < |l.consumptions| ==>
            var c := l.consumptions[i];
            && c.decision in l.tables.decisions && Root(l, c.decision) in l.tables.decisions
            && Root(l, c.decision) !in l.minted
            && c.checkedAt < l.tables.decisions[c.decision].expiresAt
            && c.digest == l.tables.decisions[Root(l, c.decision)].digest)
  {
    RunKeepsInv(EMPTY, calls);
    var l := Run(EMPTY, calls);
    forall i, j | 0 <= i < j < |l.consumptions|
      ensures Root(l, l.consumptions[i].decision) != Root(l, l.consumptions[j].decision)
    {
      RootsApart(l, l.consumptions[i].decision, l.consumptions[j].decision);
    }
  }

  /** Two consumable decisions of one lineage are one decision. */
  lemma RootsApart(l: Ledger, d: Id, d': Id)
    requires Inv(l)
    requires d in l.tables.decisions && Consumable(l.tables.decisions[d].verdict)
    requires d' in l.tables.decisions && Consumable(l.tables.decisions[d'].verdict)
    requires d != d'
    ensures Root(l, d) != Root(l, d')
  {
    // One decision points at one request, and one request mints one decision.
    assert d in l.minted ==> RequestBound(l.tables, l.minted[d]);
    assert d' in l.minted ==> RequestBound(l.tables, l.minted[d']);
  }

  /** Over every run, Approve has minted at most one decision for a request, the request is approved, and
      the child has the operation and digest of the needs_approval decision the request came with. */
  lemma ApproveMintsAtMostOneChild(calls: seq<Call>)
    ensures var l := Run(EMPTY, calls);
      && (forall d, d' :: d in l.minted && d' in l.minted && l.minted[d] == l.minted[d'] ==> d == d')
      && (forall d :: d in l.minted ==>
            && MintBound(l.tables, d, l.minted[d])
            && l.tables.decisions[Root(l, d)].verdict.NeedsApproval?)
  {
    RunKeepsInv(EMPTY, calls);
    var l := Run(EMPTY, calls);
    forall d | d in l.minted
      ensures MintBound(l.tables, d, l.minted[d]) && l.tables.decisions[Root(l, d)].verdict.NeedsApproval?
    {
      assert RequestBound(l.tables, l.minted[d]);
    }
  }

  /** Racing Approve and Deny calls resolve a request at most once, and only the first to arrive mints:
      whatever happens in between, a resolved request refuses both and nothing changes. */
  lemma ResolvedOnce(l: Ledger, a: Id, between: seq<Call>, approve: Call, deny: Call)
    requires Inv(l) && a in l.tables.approvals && !l.tables.approvals[a].status.Pending?
    requires approve.Approve? && approve.approvalId == a && deny.Deny? && deny.approvalId == a
    ensures var m := Run(l, between);
      && a in m.tables.approvals && m.tables.approvals[a] == l.tables.approvals[a]
      && Next(m, approve) == m && Next(m, deny) == m
  {
    RunKeepsInv(l, between);
  }

  /** A consumed decision is spent: whatever happens in between, every later Consume of it fails and
      nothing changes. */
  lemma ConsumedOnce(l: Ledger, d: Id, between: seq<Call>, digest: Digest, now: Time, stamp: Time)
    requires Inv(l) && d in l.tables.decisions && l.tables.decisions[d].consumedAt.Some?
    ensures var m := Run(l, between);
      Policy.Consume(m.tables, d, digest, now, stamp) == (m.tables, Failure(AlreadyConsumed))
  {
    RunKeepsInv(l, between);
  }

  /** Nothing unverified goes through without an operator. Over every run each consumption is of a decision that was
      declared verified when it was decided, or of one that Approve minted, for a request that is approved and whose own
      decision was not declared verified. */
  lemma EachConsumptionWasVerifiedOrApproved(calls: seq<Call>)
    ensures var l := Run(EMPTY, calls);
      forall i :: 0 <= i < |l.consumptions| ==>
        var d := l.consumptions[i].decision;
        || (d in l.declared && l.declared[d] == Verified)
        || (&& d in l.minted && l.minted[d] in l.tables.approvals && l.tables.approvals[l.minted[d]].status == Approved
            && Root(l, d) in l.declared && l.declared[Root(l, d)] != Verified)
  {
    RunKeepsInv(EMPTY, calls);
    var l := Run(EMPTY, calls);
    forall i | 0 <= i < |l.consumptions| && l.consumptions[i].decision in l.minted
      ensures Root(l, l.consumptions[i].decision) in l.declared && l.declared[Root(l, l.consumptions[i].decision)] != Verified
    {
      assert RequestBound(l.tables, l.minted[l.consumptions[i].decision]);
    }
  }

  /** What an operator denied is never consumed, over any run: not the decision, and nothing that descends from it. */
  lemma DeniedIsNeverConsumed(calls: seq<Call>, a: Id, i: nat)
    requires var l := Run(EMPTY, calls);
      a in l.tables.approvals && l.tables.approvals[a].status == Denied && i < |l.consumptions|
    ensures var l := Run(EMPTY, calls); Root(l, l.consumptions[i].decision) != l.tables.approvals[a].decision
  {
    RunKeepsInv(EMPTY, calls);
    var l := Run(EMPTY, calls);
    var d := l.consumptions[i].decision;
    assert RequestBound(l.tables, a);
    assert d in l.minted ==> RequestBound(l.tables, l.minted[d]);
  }

  lemma UsableIffUnconsumed(m: Ledger, d: Id, at: Time, stamp: Time)
    requires ConsumptionInv(m) && d in m.tables.decisions && m.tables.decisions[d].verdict == Admit
    ensures Policy.Consume(m.tables, d, m.tables.decisions[d].digest, at, stamp).1.Success? <==>
      !WasConsumed(m, d) && at < m.tables.decisions[d].expiresAt
  {
    if WasConsumed(m, d) {
      var i :| 0 <= i < |m.consumptions| && m.consumptions[i].decision == d;
      assert ConsumptionSound(m.tables, m.consumptions[i]);
    }
  }

  lemma UsableFor(l: Ledger, between: seq<Call>, d: Id, digest: Digest, at: Time, stamp: Time)
    requires Inv(l) && d in l.tables.decisions
    requires l.tables.decisions[d].verdict == Admit && l.tables.decisions[d].digest == digest
    ensures var m := Run(l, between);
      Policy.Consume(m.tables, d, digest, at, stamp).1.Success? <==> !WasConsumed(m, d) && at < l.tables.decisions[d].expiresAt
  {
    RunKeepsInv(l, between);
    UsableIffUnconsumed(Run(l, between), d, at, stamp);
  }

  /** A decision admitted at `now` can be consumed, whatever happens in between, until it is consumed and for exactly five
      minutes. */
  lemma AdmittedIsGoodForFiveMinutes(l: Ledger, operationId: string, text: string, now: Time, id: Id, approvalId: Id,
                                     between: seq<Call>, at: Time, stamp: Time)
    requires Inv(l) && operationId != "" && id !in l.tables.decisions && approvalId !in l.tables.approvals
    ensures var m := Run(Next(l, Decide(operationId, Json(text), Verified, now, id, approvalId)), between);
      Policy.Consume(m.tables, id, Sha256(text), at, stamp).1.Success? <==> !WasConsumed(m, id) && at < now + 300_000
  {
    var decide := Decide(operationId, Json(text), Verified, now, id, approvalId);
    NextKeepsInv(l, decide);
    UsableFor(Next(l, decide), between, id, Sha256(text), at, stamp);
  }

  /** So can the one that an approval at `now` minted, for the digest of what was asked for, however long the request had
      been waiting. */
  lemma ApprovedIsGoodForFiveMinutes(l: Ledger, a: Id, operator: string, now: Time, resolved: Time, newId: Id,
                                     between: seq<Call>, at: Time, stamp: Time)
    requires Inv(l) && a in l.tables.approvals && l.tables.approvals[a].status == Pending
    requires newId !in l.tables.decisions && newId !in l.minted
    ensures l.tables.approvals[a].decision in l.tables.decisions
    ensures var m := Run(Next(l, Approve(a, operator, now, resolved, newId)), between);
      var digest := l.tables.decisions[l.tables.approvals[a].decision].digest;
      Policy.Consume(m.tables, newId, digest, at, stamp).1.Success? <==> !WasConsumed(m, newId) && at < now + 300_000
  {
    var approve := Approve(a, operator, now, resolved, newId);
    assert RequestBound(l.tables, a);
    NextKeepsInv(l, approve);
    UsableFor(Next(l, approve), between, newId, l.tables.decisions[l.tables.approvals[a].decision].digest, at, stamp);
  }

  /** A decided result never changes: neither its verdict nor its terms, over any run. */
  lemma DecidedResultsNeverChange(l: Ledger, calls: seq<Call>, d: Id)
    requires Inv(l) && d in l.tables.decisions
    ensures d in Run(l, calls).tables.decisions
    ensures SameTerms(l.tables.decisions[d], Run(l, calls).tables.decisions[d])
  {
    RunKeepsInv(l, calls);
  }
}
