/** What a completed or failed chain of attempts says, and what it leaves in the effect table. */
module FailoverTheorems {
  import opened Wrappers
  import opened Failover
  import O = Operations
  import Policy

  // ---- one attempt -------------------------------------------------------------------------------------

  /** Nothing but the attempt's own effect is touched. */
  ghost predicate OnlyItsOwn(b: Books, after: Books, id: Id) {
    forall x :: x != id ==> (x in after.effects <==> x in b.effects) && (x in b.effects ==> after.effects[x] == b.effects[x])
  }

  predicate Is(b: Books, id: Id, states: set<O.State>) {
    id in b.effects && b.effects[id].state in states
  }

  /** How the effect ends when the provider's answer is recorded. */
  function Terminal(a: Attempt): O.State {
    if a.call.Success? then O.Confirmed else O.Failed
  }

  /** The state each engine call finds the effect in; before Propose there is none. */
  function Found(step: Step): Option<O.State> {
    match step
    case Propose => None
    case DispatchPending => Some(O.Admitted)
    case Dispatch => Some(O.DispatchPending)
    case Observe => Some(O.Dispatched)
    case Resolve => Some(O.Observed)
  }

  /** ... and the state it is there to write. */
  function Written(step: Step, a: Attempt): O.State {
    match step
    case Propose => O.Admitted
    case DispatchPending => O.DispatchPending
    case Dispatch => O.Dispatched
    case Observe => O.Observed
    case Resolve => Terminal(a)
  }

  /** The call failed because its last statement, the reload, was refused. */
  predicate ReloadRefused(a: Attempt, step: Step, error: O.Error) {
    error.Unavailable? && DownAt(a, step).Reloading?
  }

  /** What a failed engine call leaves: the effect as it found it, except that a refused reload, which comes after
      the write, leaves it as written. */
  predicate LeftBy(after: Books, a: Attempt, step: Step, error: O.Error) {
    if ReloadRefused(a, step, error) then Is(after, a.effect, {Written(step, a)})
    else if Found(step).Some? then Is(after, a.effect, {Found(step).value})
    else a.effect !in after.effects
  }

  predicate BeforeTheCall(step: Step) {
    step.Propose? || step.DispatchPending? || step.Dispatch?
  }

  /** What the attempt's effect must look like, given the attempt's result. */
  predicate Matches(after: Books, a: Attempt, r: Result<Answer, Error>) {
    match r
    case Success(x) => a.call == Success(x) && Is(after, a.effect, {O.Confirmed})
    case Failure(CallFailed(e)) =>
      a.call == Failure(e) && Is(after, a.effect, {O.Failed})
      && after.effects[a.effect].error == Some(O.EffectError("PROVIDER_CALL_FAILED", true, e))
    case Failure(NotCalled(step, error)) => BeforeTheCall(step) && LeftBy(after, a, step, error)
    case Failure(NotRecorded(call, step, error)) =>
      call == (if a.call.Failure? then Some(a.call.error) else None) && !BeforeTheCall(step) && LeftBy(after, a, step, error)
    case Failure(NoCredential(_)) => false
  }

  lemma ProposeLeaves(b: Books, a: Attempt)
    requires a.effect !in b.effects
    ensures var (after, r) := DoPropose(b, a);
      && OnlyItsOwn(b, after, a.effect)
      && (r.Success? ==> Is(after, a.effect, {O.Admitted}))
      && (r.Failure? ==> LeftBy(after, a, Propose, r.error))
  {
  }

  lemma DispatchPendingLeaves(b: Books, a: Attempt)
    requires Is(b, a.effect, {O.Admitted})
    ensures var (after, r) := DoDispatchPending(b, a);
      && OnlyItsOwn(b, after, a.effect)
      && (r.Success? ==> Is(after, a.effect, {O.DispatchPending}))
      && (r.Failure? ==> LeftBy(after, a, DispatchPending, r.error))
  {
  }

  lemma DispatchLeaves(b: Books, provider: string, a: Attempt)
    requires Is(b, a.effect, {O.DispatchPending})
    ensures var (after, r) := DoMark(b, a, Dispatch, O.MarkDispatched(provider));
      && OnlyItsOwn(b, after, a.effect)
      && (r.Success? ==> Is(after, a.effect, {O.Dispatched}))
      && (r.Failure? ==> LeftBy(after, a, Dispatch, r.error))
  {
  }

  lemma BeforeMatches(b: Books, provider: string, a: Attempt)
    requires a.effect !in b.effects
    ensures var (after, e) := Before(b, provider, a);
      && OnlyItsOwn(b, after, a.effect)
      && (e.None? ==> Is(after, a.effect, {O.Dispatched}))
      && (e.Some? ==> e.value.NotCalled? && BeforeTheCall(e.value.step) && LeftBy(after, a, e.value.step, e.value.engine))
  {
    ProposeLeaves(b, a);
    var (b1, proposed) := DoPropose(b, a);
    if proposed.Success? {
      DispatchPendingLeaves(b1, a);
      var (b2, pending) := DoDispatchPending(b1, a);
      if pending.Success? {
        DispatchLeaves(b2, provider, a);
      }
    }
  }

  lemma ObserveLeaves(b: Books, a: Attempt)
    requires Is(b, a.effect, {O.Dispatched})
    ensures var (after, r) := DoMark(b, a, Observe, O.MarkObserved(""));
      && OnlyItsOwn(b, after, a.effect)
      && (r.Success? ==> Is(after, a.effect, {O.Observed}))
      && (r.Failure? ==> LeftBy(after, a, Observe, r.error))
  {
  }

  lemma ResolveLeaves(b: Books, a: Attempt)
    requires Is(b, a.effect, {O.Observed})
    ensures var (after, r) := DoMark(b, a, Resolve, Verdict(a.call));
      && OnlyItsOwn(b, after, a.effect)
      && (r.Success? ==> Matches(after, a, Plain(a.call)))
      && (r.Failure? ==> LeftBy(after, a, Resolve, r.error))
  {
  }

  lemma FinishMatches(b: Books, a: Attempt)
    requires Is(b, a.effect, {O.Dispatched})
    ensures var (after, r) := Finish(b, a);
      Matches(after, a, r) && OnlyItsOwn(b, after, a.effect) && !(r.Failure? && r.error.NotCalled?)
  {
    ObserveLeaves(b, a);
    var (b1, observed) := DoMark(b, a, Observe, O.MarkObserved(""));
    if observed.Success? {
      ResolveLeaves(b1, a);
    }
  }

  /** Whichever statement of whichever engine call the database refuses: an answer is only ever returned with the
      effect recorded as confirmed; a provider's error with the effect recorded as failed; and any other error
      leaves the effect exactly where the failed engine call found it, except that a refused reload leaves it where
      the call wrote it. No other effect is touched. */
  lemma ResultMatchesEffect(b: Books, provider: string, a: Attempt)
    requires a.effect !in b.effects
    ensures var (after, r) := TrackEffect(b, true, provider, a);
      Matches(after, a, r) && OnlyItsOwn(b, after, a.effect)
  {
    BeforeMatches(b, provider, a);
    var (b1, e) := Before(b, provider, a);
    if e.None? {
      FinishMatches(b1, a);
    }
  }

  /** So an effect is recorded as dispatched though the provider was never called if and only if the reload after
      MarkDispatched's UPDATE was refused. */
  lemma DispatchedWithoutACallIffReloadRefused(b: Books, provider: string, a: Attempt)
    requires a.effect !in b.effects && TrackEffect(b, true, provider, a).1.Failure?
    requires TrackEffect(b, true, provider, a).1.error.NotCalled?
    ensures var (after, r) := TrackEffect(b, true, provider, a);
      Is(after, a.effect, {O.Dispatched}) <==> r.error.step.Dispatch? && ReloadRefused(a, Dispatch, r.error.engine)
  {
    ResultMatchesEffect(b, provider, a);
  }

  /** ... and as settled though its outcome was reported as unrecorded if and only if the reload after Resolve's
      was. */
  lemma SettledThoughUnrecordedIffReloadRefused(b: Books, provider: string, a: Attempt)
    requires a.effect !in b.effects && TrackEffect(b, true, provider, a).1.Failure?
    requires TrackEffect(b, true, provider, a).1.error.NotRecorded?
    ensures var (after, r) := TrackEffect(b, true, provider, a);
      Is(after, a.effect, {O.Confirmed, O.Failed}) <==> r.error.step.Resolve? && ReloadRefused(a, Resolve, r.error.engine)
  {
    ResultMatchesEffect(b, provider, a);
  }

  /** What the attempt's effect says of the call, if there is one: the operation, the router as owner, the kind of call, the
      payload's digest, no retry; from dispatched on the provider as its external command; and the provider's error exactly
      if it failed. */
  predicate NamesItsCall(after: Books, provider: string, a: Attempt) {
    a.effect in after.effects ==>
      var e := after.effects[a.effect];
      && e.operationId == a.operationId && e.owner == "amh.core/inference" && e.effectType == "amh.core/inference.complete"
      && e.decision == a.decision && e.forwardDigest == Policy.Sha256(a.payload) && e.retryClass == O.Never
      && e.externalCommand == (if e.state in {O.Admitted, O.DispatchPending} then "" else provider)
      && e.error == if e.state == O.Failed && a.call.Failure?
                    then Some(O.EffectError("PROVIDER_CALL_FAILED", true, a.call.error)) else None
  }

  lemma PendingNamesItsCall(b: Books, provider: string, a: Attempt)
    requires Is(b, a.effect, {O.Admitted}) && NamesItsCall(b, provider, a)
    ensures NamesItsCall(DoDispatchPending(b, a).0, provider, a)
  {
  }

  lemma DispatchNamesItsCall(b: Books, provider: string, a: Attempt)
    requires Is(b, a.effect, {O.DispatchPending}) && NamesItsCall(b, provider, a)
    ensures NamesItsCall(DoMark(b, a, Dispatch, O.MarkDispatched(provider)).0, provider, a)
  {
  }

  lemma ProposeNamesItsCall(b: Books, provider: string, a: Attempt)
    requires a.effect !in b.effects
    ensures NamesItsCall(DoPropose(b, a).0, provider, a)
  {
  }

  lemma BeforeNamesItsCall(b: Books, provider: string, a: Attempt)
    requires a.effect !in b.effects
    ensures NamesItsCall(Before(b, provider, a).0, provider, a)
  {
    ProposeLeaves(b, a);
    ProposeNamesItsCall(b, provider, a);
    var (b1, proposed) := DoPropose(b, a);
    if proposed.Success? {
      DispatchPendingLeaves(b1, a);
      PendingNamesItsCall(b1, provider, a);
      var (b2, pending) := DoDispatchPending(b1, a);
      if pending.Success? {
        DispatchNamesItsCall(b2, provider, a);
      }
    }
  }

  lemma FinishNamesItsCall(b: Books, provider: string, a: Attempt)
    requires Is(b, a.effect, {O.Dispatched}) && NamesItsCall(b, provider, a)
    ensures NamesItsCall(Finish(b, a).0, provider, a)
  {
  }

  /** However far the attempt gets. */
  lemma EffectNamesItsCall(b: Books, provider: string, a: Attempt)
    requires a.effect !in b.effects
    ensures NamesItsCall(TrackEffect(b, true, provider, a).0, provider, a)
  {
    BeforeMatches(b, provider, a);
    BeforeNamesItsCall(b, provider, a);
    var (b1, e) := Before(b, provider, a);
    if e.None? {
      FinishNamesItsCall(b1, provider, a);
    }
  }

  /** The statements each engine call really has. */
  predicate HasStatement(step: Step, refused: O.Refused) {
    match refused
    case Nothing => false
    case Reading => !step.Propose?
    case Deciding => step.Propose? || step.DispatchPending?
    case Writing => true
    case Reloading => true
  }

  /** What the database's and the clocks' part in an attempt has to be for tracking to go through. */
  predicate Undisturbed(a: Attempt) {
    && (a.down.Some? ==> !HasStatement(a.down.value.0, a.down.value.1))
    && a.operationId != "" && a.dispatchAt < a.proposedAt + Policy.DECISION_TTL
  }

  lemma BeforeGoesThrough(b: Books, provider: string, a: Attempt)
    requires a.effect !in b.effects
    ensures Before(b, provider, a).1 == None <==>
      && a.operationId != "" && a.dispatchAt < a.proposedAt + Policy.DECISION_TTL
      && (a.down.Some? && BeforeTheCall(a.down.value.0) ==> !HasStatement(a.down.value.0, a.down.value.1))
  {
  }

  lemma FinishGoesThrough(b: Books, a: Attempt)
    requires Is(b, a.effect, {O.Dispatched})
    ensures Finish(b, a).1 == Plain(a.call) <==>
      (a.down.Some? && !BeforeTheCall(a.down.value.0) ==> !HasStatement(a.down.value.0, a.down.value.1))
  {
  }

  /** While nobody else moves the effect or spends its decision, tracking is invisible in the result if and only if
      the database refuses no statement, the operation id is not empty, and the decision is consumed before it
      expires. */
  lemma TrackingIsInvisibleIffUndisturbed(b: Books, provider: string, a: Attempt)
    requires a.effect !in b.effects
    ensures TrackEffect(b, true, provider, a).1 == Plain(a.call) <==> Undisturbed(a)
  {
    BeforeMatches(b, provider, a);
    BeforeGoesThrough(b, provider, a);
    var (b1, e) := Before(b, provider, a);
    if e.None? {
      FinishGoesThrough(b1, a);
    }
  }

  /** Without a credential there is no call and no effect; without an engine the answer is the provider's own, and nothing is
      recorded. */
  lemma UntrackedCallsAreBare(b: Books, tracking: bool, provider: string, a: Attempt)
    ensures a.credential.Some? ==> CompleteOne(b, tracking, provider, a) == (b, Failure(NoCredential(a.credential.value)))
    ensures a.credential.None? && !tracking ==>
      CompleteOne(b, tracking, provider, a) ==
      (b, if a.call.Success? then Success(a.call.value) else Failure(CallFailed(a.call.error)))
  {
  }

  // ---- the chain ---------------------------------------------------------------------------------------

  /** The tables after the first `k` attempts. */
  function BooksAt(b: Books, tracking: bool, chain: seq<string>, attempts: seq<Attempt>, k: nat): Books
    requires |attempts| == |chain| && k <= |chain|
  {
    if k == 0 then b
    else CompleteOne(BooksAt(b, tracking, chain, attempts, k - 1), tracking, chain[k - 1], attempts[k - 1]).0
  }

  function ResultAt(b: Books, tracking: bool, chain: seq<string>, attempts: seq<Attempt>, k: nat): Result<Answer, Error>
    requires |attempts| == |chain| && k < |chain|
  {
    CompleteOne(BooksAt(b, tracking, chain, attempts, k), tracking, chain[k], attempts[k]).1
  }

  lemma {:induction false} SkipFirst(b: Books, tracking: bool, chain: seq<string>, attempts: seq<Attempt>, k: nat)
    requires |attempts| == |chain| && k < |chain|
    ensures var b1 := CompleteOne(b, tracking, chain[0], attempts[0]).0;
      BooksAt(b1, tracking, chain[1..], attempts[1..], k) == BooksAt(b, tracking, chain, attempts, k + 1)
  {
    if k > 0 {
      SkipFirst(b, tracking, chain, attempts, k - 1);
    } else {
      assert BooksAt(b, tracking, chain, attempts, 0) == b;
    }
  }

  /** The attempts before `k` all failed. */
  predicate FailedBefore(b: Books, tracking: bool, chain: seq<string>, attempts: seq<Attempt>, k: nat)
    requires |attempts| == |chain| && k <= |chain|
  {
    forall i: nat :: i < k ==> ResultAt(b, tracking, chain, attempts, i).Failure?
  }

  lemma FailedBeforeShifts(b: Books, tracking: bool, chain: seq<string>, attempts: seq<Attempt>, k: nat)
    requires |attempts| == |chain| && k < |chain| && CompleteOne(b, tracking, chain[0], attempts[0]).1.Failure?
    requires FailedBefore(CompleteOne(b, tracking, chain[0], attempts[0]).0, tracking, chain[1..], attempts[1..], k)
    ensures FailedBefore(b, tracking, chain, attempts, k + 1)
  {
    var b1 := CompleteOne(b, tracking, chain[0], attempts[0]).0;
    assert BooksAt(b, tracking, chain, attempts, 0) == b;
    forall i: nat | 0 < i < k + 1 ensures ResultAt(b, tracking, chain, attempts, i).Failure? {
      SkipFirst(b, tracking, chain, attempts, i - 1);
      assert ResultAt(b1, tracking, chain[1..], attempts[1..], i - 1).Failure?;
    }
  }

  /** `k` is the attempt that decided. */
  ghost predicate Decided(b: Books, tracking: bool, chain: seq<string>, attempts: seq<Attempt>, k: nat, x: Answer)
    requires |attempts| == |chain|
  {
    && k < |chain| && ResultAt(b, tracking, chain, attempts, k) == Success(x)
    && FailedBefore(b, tracking, chain, attempts, k)
  }

  /** With or without tracking and whatever fails: an answer is the answer of the first attempt that succeeds, and
      no attempt after it is made; without an answer every attempt was made and failed, and the errors are theirs,
      one per provider in order. */
  lemma {:induction false} FirstSuccessWins(b: Books, tracking: bool, chain: seq<string>, attempts: seq<Attempt>)
    requires |attempts| == |chain|
    ensures var (after, r) := Complete(b, tracking, chain, attempts);
      match r
      case Success(x) =>
        exists k: nat :: Decided(b, tracking, chain, attempts, k, x) && after == BooksAt(b, tracking, chain, attempts, k + 1)
      case Failure(es) =>
        && FailedBefore(b, tracking, chain, attempts, |chain|) && after == BooksAt(b, tracking, chain, attempts, |chain|)
        && ErrorsOf(b, tracking, chain, attempts, es)
    decreases |chain|
  {
    if chain != [] {
      assert BooksAt(b, tracking, chain, attempts, 0) == b;
      var (b1, r1) := CompleteOne(b, tracking, chain[0], attempts[0]);
      if r1.Success? {
        assert Decided(b, tracking, chain, attempts, 0, r1.value);
        assert BooksAt(b, tracking, chain, attempts, 0 + 1) == b1;
      } else {
        FirstSuccessWins(b1, tracking, chain[1..], attempts[1..]);
        var (after, r) := Complete(b1, tracking, chain[1..], attempts[1..]);
        if r.Success? {
          var k: nat :| Decided(b1, tracking, chain[1..], attempts[1..], k, r.value)
            && after == BooksAt(b1, tracking, chain[1..], attempts[1..], k + 1);
          SkipFirst(b, tracking, chain, attempts, k);
          FailedBeforeShifts(b, tracking, chain, attempts, k);
          assert Decided(b, tracking, chain, attempts, k + 1, r.value);
          assert BooksAt(b, tracking, chain, attempts, k + 2) == after;
        } else {
          FailedBeforeShifts(b, tracking, chain, attempts, |chain| - 1);
          SkipFirst(b, tracking, chain, attempts, |chain| - 1);
          ErrorsShift(b, b1, tracking, chain, attempts, r1.error, r.error);
        }
      }
    }
  }

  /** The providers that are tried: the ones that are listed, in that order; or the one that is named; or anthropic. */
  lemma ListedElseNamedElseAnthropic(providers: seq<string>, provider: string)
    ensures providers != [] ==> ProviderChain(providers, provider) == providers
    ensures providers == [] && provider != "" ==> ProviderChain(providers, provider) == [provider]
    ensures providers == [] && provider == "" ==> ProviderChain(providers, provider) == ["anthropic"]
  {
  }

  lemma SameAttempt(b: Books, tracking: bool, chain: seq<string>, attempts: seq<Attempt>, i: nat, provider: string,
                    a: Attempt)
    requires |attempts| == |chain| && i < |chain| && chain[i] == provider && attempts[i] == a
    ensures ResultAt(b, tracking, chain, attempts, i) ==
            CompleteOne(BooksAt(b, tracking, chain, attempts, i), tracking, provider, a).1
  {
  }

  lemma ResultsShift(b: Books, tracking: bool, chain: seq<string>, attempts: seq<Attempt>, i: nat)
    requires |attempts| == |chain| && 0 < i < |chain|
    ensures var b1 := CompleteOne(b, tracking, chain[0], attempts[0]).0;
      ResultAt(b1, tracking, chain[1..], attempts[1..], i - 1) == ResultAt(b, tracking, chain, attempts, i)
  {
    SkipFirst(b, tracking, chain, attempts, i - 1);
    var b1 := CompleteOne(b, tracking, chain[0], attempts[0]).0;
    SameAttempt(b1, tracking, chain[1..], attempts[1..], i - 1, chain[i], attempts[i]);
    SameAttempt(b, tracking, chain, attempts, i, chain[i], attempts[i]);
  }

  /** The errors are those of these attempts, one per provider in order. */
  predicate ErrorsOf(b: Books, tracking: bool, chain: seq<string>, attempts: seq<Attempt>, es: seq<(string, Error)>)
    requires |attempts| == |chain| && FailedBefore(b, tracking, chain, attempts, |chain|)
  {
    |es| == |chain| && forall i: nat :: i < |chain| ==> es[i] == (chain[i], ResultAt(b, tracking, chain, attempts, i).error)
  }

  lemma ErrorsShift(b: Books, b1: Books, tracking: bool, chain: seq<string>, attempts: seq<Attempt>, e: Error,
                    es: seq<(string, Error)>)
    requires |attempts| == |chain| && chain != [] && CompleteOne(b, tracking, chain[0], attempts[0]) == (b1, Failure(e))
    requires FailedBefore(b, tracking, chain, attempts, |chain|)
    requires FailedBefore(b1, tracking, chain[1..], attempts[1..], |chain| - 1)
    requires ErrorsOf(b1, tracking, chain[1..], attempts[1..], es)
    ensures ErrorsOf(b, tracking, chain, attempts, [(chain[0], e)] + es)
  {
    var all := [(chain[0], e)] + es;
    assert BooksAt(b, tracking, chain, attempts, 0) == b;
    forall i: nat | 0 < i < |chain| ensures all[i] == (chain[i], ResultAt(b, tracking, chain, attempts, i).error) {
      ResultsShift(b, tracking, chain, attempts, i);
      assert all[i] == es[i - 1] && chain[1..][i - 1] == chain[i];
    }
  }

  /** A request that was tried with these providers: an answer is that of the first whose attempt answers, and no attempt
      after it was made; without one every attempt failed, and there is one error for each, under its name, in order. */
  ghost predicate CompletedBy(before: Books, tracking: bool, providers: seq<string>, attempts: seq<Attempt>, after: Books,
                              r: Result<Answer, ChainError>)
    requires |attempts| == |providers|
  {
    match r
    case Success(x) =>
      exists k: nat :: Decided(before, tracking, providers, attempts, k, x)
        && after == BooksAt(before, tracking, providers, attempts, k + 1)
    case Failure(AllProvidersFailed(es)) =>
      && FailedBefore(before, tracking, providers, attempts, |providers|)
      && after == BooksAt(before, tracking, providers, attempts, |providers|)
      && |es| == |providers|
      && forall i: nat :: i < |providers| ==>
           es[i].0 == providers[i] && es[i].1 == ResultAt(before, tracking, providers, attempts, i).error
  }

  lemma CompleteIsCompletedBy(b: Books, tracking: bool, chain: seq<string>, attempts: seq<Attempt>)
    requires |attempts| == |chain|
    ensures var (after, r) := Complete(b, tracking, chain, attempts);
      CompletedBy(b, tracking, chain, attempts, after, Reported(r))
  {
    FirstSuccessWins(b, tracking, chain, attempts);
  }

  // ---- the effects of a chain --------------------------------------------------------------------------

  predicate Answers(a: Attempt) {
    a.credential.None? && a.call.Success?
  }

  /** How many attempts are made: up to and with the first that answers. */
  function Tried(attempts: seq<Attempt>): (n: nat)
    ensures n <= |attempts|
  {
    if attempts == [] then 0 else if Answers(attempts[0]) then 1 else 1 + Tried(attempts[1..])
  }

  /** Effect ids are drawn fresh. */
  predicate AllNew(effects: map<Id, O.Effect>, attempts: seq<Attempt>) {
    && (forall i :: 0 <= i < |attempts| ==> attempts[i].effect !in effects)
    && (forall i, j :: 0 <= i < j < |attempts| ==> attempts[i].effect != attempts[j].effect)
  }

  predicate AllUndisturbed(attempts: seq<Attempt>) {
    forall i :: 0 <= i < |attempts| ==> Undisturbed(attempts[i])
  }

  /** The attempt is made, and with a credential. */
  predicate Calls(attempts: seq<Attempt>, i: nat) {
    i < Tried(attempts) && attempts[i].credential.None?
  }

  /** The attempt's effect is in the table, confirmed or failed as the provider said, and names that provider. */
  predicate Settled(after: Books, provider: string, a: Attempt) {
    && Is(after, a.effect, if a.call.Success? then {O.Confirmed} else {O.Failed})
    && NamesItsCall(after, provider, a)
  }

  /** The attempts that called have settled effects, each naming its provider, and there is nothing else new. */
  ghost predicate LeavesExactly(b: Books, after: Books, chain: seq<string>, attempts: seq<Attempt>)
    requires |attempts| == |chain|
  {
    && (forall i: nat :: Calls(attempts, i) ==> Settled(after, chain[i], attempts[i]))
    && (forall id :: id in b.effects ==> id in after.effects && after.effects[id] == b.effects[id])
    && (forall id :: id in after.effects && id !in b.effects ==> exists i: nat :: Calls(attempts, i) && attempts[i].effect == id)
  }

  lemma UndisturbedAttempt(b: Books, provider: string, a: Attempt)
    requires a.effect !in b.effects && Undisturbed(a)
    ensures var (after, r) := CompleteOne(b, true, provider, a);
      && r == (if a.credential.Some? then Failure(NoCredential(a.credential.value)) else Plain(a.call))
      && OnlyItsOwn(b, after, a.effect)
      && (a.credential.Some? ==> after == b)
      && (a.credential.None? ==> Settled(after, provider, a))
  {
    if a.credential.None? {
      TrackingIsInvisibleIffUndisturbed(b, provider, a);
      ResultMatchesEffect(b, provider, a);
      EffectNamesItsCall(b, provider, a);
    }
  }

  lemma CallsShift(attempts: seq<Attempt>, i: nat)
    requires attempts != [] && !Answers(attempts[0])
    ensures Calls(attempts[1..], i) <==> Calls(attempts, i + 1)
  {
  }

  lemma StillNew(b: Books, b1: Books, attempts: seq<Attempt>)
    requires attempts != [] && AllNew(b.effects, attempts) && OnlyItsOwn(b, b1, attempts[0].effect)
    ensures AllNew(b1.effects, attempts[1..])
  {
  }

  lemma LeavesFirst(b: Books, b1: Books, chain: seq<string>, attempts: seq<Attempt>)
    requires |attempts| == |chain| && attempts != [] && Answers(attempts[0])
    requires attempts[0].effect !in b.effects && OnlyItsOwn(b, b1, attempts[0].effect)
    requires Settled(b1, chain[0], attempts[0])
    ensures LeavesExactly(b, b1, chain, attempts)
  {
    assert Calls(attempts, 0);
  }

  lemma LeavesMore(b: Books, b1: Books, after: Books, chain: seq<string>, attempts: seq<Attempt>)
    requires |attempts| == |chain| && attempts != [] && !Answers(attempts[0]) && AllNew(b.effects, attempts)
    requires OnlyItsOwn(b, b1, attempts[0].effect)
    requires attempts[0].credential.Some? ==> b1 == b
    requires attempts[0].credential.None? ==> Settled(b1, chain[0], attempts[0])
    requires LeavesExactly(b1, after, chain[1..], attempts[1..])
    ensures LeavesExactly(b, after, chain, attempts)
  {
    forall i: nat | Calls(attempts, i) ensures Settled(after, chain[i], attempts[i]) {
      if i > 0 {
        CallsShift(attempts, i - 1);
        assert attempts[1..][i - 1] == attempts[i] && chain[1..][i - 1] == chain[i];
      } else {
        assert after.effects[attempts[0].effect] == b1.effects[attempts[0].effect];
      }
    }
    forall id | id in after.effects && id !in b.effects ensures exists i: nat :: Calls(attempts, i) && attempts[i].effect == id {
      if id in b1.effects {
        assert Calls(attempts, 0) && attempts[0].effect == id;
      } else {
        var i: nat :| Calls(attempts[1..], i) && attempts[1..][i].effect == id;
        CallsShift(attempts, i);
        assert Calls(attempts, i + 1) && attempts[i + 1].effect == id;
      }
    }
  }

  /** What a provider's attempt amounts to without any tracking. */
  function Expected(a: Attempt): Result<Answer, Error> {
    if a.credential.Some? then Failure(NoCredential(a.credential.value)) else Plain(a.call)
  }

  /** While tracking goes through and nobody else touches these effects: the answer is the first provider's that has
      a credential and answers, else there is one error per provider in order; and the table has gained exactly one
      effect for each attempt that was made with a credential, failed for each provider before the winner,
      confirmed for the winner, and none for providers after it. */
  lemma {:induction false} OneEffectPerCall(b: Books, chain: seq<string>, attempts: seq<Attempt>)
    requires |attempts| == |chain| && AllNew(b.effects, attempts) && AllUndisturbed(attempts)
    ensures var (after, r) := Complete(b, true, chain, attempts);
      && LeavesExactly(b, after, chain, attempts)
      && match r
         case Success(x) => Tried(attempts) > 0 && Expected(attempts[Tried(attempts) - 1]) == Success(x)
         case Failure(es) =>
           && |es| == |chain|
           && forall i :: 0 <= i < |chain| ==> Expected(attempts[i]).Failure? && es[i] == (chain[i], Expected(attempts[i]).error)
    decreases |chain|
  {
    if chain != [] {
      var b1 := CompleteOne(b, true, chain[0], attempts[0]).0;
      UndisturbedAttempt(b, chain[0], attempts[0]);
      if Answers(attempts[0]) {
        LeavesFirst(b, b1, chain, attempts);
      } else {
        StillNew(b, b1, attempts);
        OneEffectPerCall(b1, chain[1..], attempts[1..]);
        LeavesMore(b, b1, Complete(b1, true, chain[1..], attempts[1..]).0, chain, attempts);
      }
    }
  }
}
