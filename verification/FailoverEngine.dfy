/** The router as an object: each engine call, each early return and each error is made in the order of the source,
    over an operations engine that may be absent. */
module FailoverEngine {
  import opened Wrappers
  import opened Failover
  import T = FailoverTheorems
  import O = Operations
  import Policy
  import OperationsEngine

  class Router {
    const operations: OperationsEngine.Engine?

    constructor (operations: OperationsEngine.Engine?)
      ensures this.operations == operations
    {
      this.operations := operations;
    }

    ghost function Frame(): set<object> {
      if operations == null then {} else {operations, operations.policy}
    }

    /** The tables behind the engine; nothing at all without one. */
    ghost function Contents(): Books
      reads this, Frame()
    {
      if operations == null then O.Books(Policy.Tables(map[], map[]), map[]) else operations.Contents()
    }

    method Before(provider: string, a: Attempt) returns (e: Option<Error>)
      requires operations != null
      modifies Frame()
      ensures (Contents(), e) == Failover.Before(old(Contents()), provider, a)
    {
      var proposed := operations.Propose(RequestOf(a), a.proposedAt, a.effect, a.decision, a.approval, DownAt(a, Propose));
      if proposed.Failure? {
        return Some(NotCalled(Propose, proposed.error));
      }
      var pending := operations.MarkDispatchPending(a.effect, Policy.Json(a.payload), a.dispatchAt, a.stamp,
                                                    DownAt(a, DispatchPending));
      if pending.Failure? {
        return Some(NotCalled(DispatchPending, pending.error));
      }
      var dispatched := operations.Mark(a.effect, O.MarkDispatched(provider), DownAt(a, Dispatch));
      if dispatched.Failure? {
        return Some(NotCalled(Dispatch, dispatched.error));
      }
      return None;
    }

    method Finish(a: Attempt) returns (r: Result<Answer, Error>)
      requires operations != null
      modifies Frame()
      ensures (Contents(), r) == Failover.Finish(old(Contents()), a)
    {
      var observed := operations.Mark(a.effect, O.MarkObserved(""), DownAt(a, Observe));
      if observed.Failure? {
        return Failure(NotRecorded(ErrorOf(a.call), Observe, observed.error));
      }
      var terminal, err := O.Confirmed, None;
      if a.call.Failure? {
        terminal, err := O.Failed, Some(O.EffectError("PROVIDER_CALL_FAILED", true, a.call.error));
      }
      var resolved := operations.Mark(a.effect, O.Resolve(terminal, err), DownAt(a, Resolve));
      if resolved.Failure? {
        return Failure(NotRecorded(ErrorOf(a.call), Resolve, resolved.error));
      }
      return Plain(a.call);
    }

    method CompleteOne(provider: string, a: Attempt) returns (r: Result<Answer, Error>)
      modifies Frame()
      ensures (Contents(), r) == Failover.CompleteOne(old(Contents()), operations != null, provider, a)
    {
      if a.credential.Some? {
        return Failure(NoCredential(a.credential.value));
      }
      if operations == null {
        return Plain(a.call);
      }
      var e := Before(provider, a);
      if e.Some? {
        return Failure(e.value);
      }
      r := Finish(a);
    }

    /** The loop over the chain. */
    method TryEach(chain: seq<string>, attempts: seq<Attempt>) returns (r: Result<Answer, ChainError>)
      requires |attempts| == |chain|
      modifies Frame()
      ensures var (b, answer) := Failover.Complete(old(Contents()), operations != null, chain, attempts);
        Contents() == b && r == Reported(answer)
    {
      var errs: seq<(string, Error)> := [];
      assert chain[0..] == chain && attempts[0..] == attempts;
      assert forall es :: errs + es == es;
      for i := 0 to |chain|
        invariant Failover.Complete(old(Contents()), operations != null, chain, attempts) ==
                  After(errs, Failover.Complete(Contents(), operations != null, chain[i..], attempts[i..]))
      {
        assert chain[i..][1..] == chain[i + 1..] && attempts[i..][1..] == attempts[i + 1..];
        var result := CompleteOne(chain[i], attempts[i]);
        if result.Success? {
          return Success(result.value);
        }
        assert forall es :: errs + ([(chain[i], result.error)] + es) == errs + [(chain[i], result.error)] + es;
        errs := errs + [(chain[i], result.error)];
      }
      assert chain[|chain|..] == [] && attempts[|chain|..] == [];
      assert errs + [] == errs;
      return Failure(AllProvidersFailed(errs));
    }

    /** Complete: the providers that are listed, in order; without any the one that is named, or anthropic. The first
        answer is the answer, and there is an error for each provider only if all of them failed. */
    method Complete(providers: seq<string>, provider: string, attempts: seq<Attempt>)
      returns (r: Result<Answer, ChainError>)
      requires |attempts| == if providers != [] then |providers| else 1
      modifies Frame()
      ensures providers != [] ==>
        T.CompletedBy(old(Contents()), operations != null, providers, attempts, Contents(), r)
      ensures providers == [] ==>
        T.CompletedBy(old(Contents()), operations != null, [if provider != "" then provider else "anthropic"], attempts,
                      Contents(), r)
    {
      T.ListedElseNamedElseAnthropic(providers, provider);
      var chain := ProviderChain(providers, provider);
      T.CompleteIsCompletedBy(Contents(), operations != null, chain, attempts);
      r := TryEach(chain, attempts);
    }
  }
}
