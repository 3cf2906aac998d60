/** What holds over whole runs of the registry. */
module RegistryTheorems {
  import opened Wrappers
  import opened Registry
  import opened RegistryRuns
  import C = ContextEffects

  lemma {:induction false} RunOfAppend(t: Tables, before: seq<Event>, after: seq<Event>)
    ensures Run(t, before + after) == Run(Run(t, before), after)
    decreases |before|
  {
    if before == [] {
      assert before + after == after;
    } else {
      assert (before + after)[1..] == before[1..] + after;
      RunOfAppend(Next(t, before[0]), before[1..], after);
    }
  }

  // ---- what never changes ------------------------------------------------------------------------------

  /** Rows are never removed and keep what their manifest said; an activation number that is not new belongs to an
      extension that was already active under it; and nothing moves an extension out of activating. */
  ghost predicate Evolves(t: Tables, after: Tables) {
    && t.activations <= after.activations
    && (forall k :: k in t.extensions ==>
          && k in after.extensions
          && after.extensions[k].capabilities == t.extensions[k].capabilities
          && after.extensions[k].needs == t.extensions[k].needs
          && after.extensions[k].digest == t.extensions[k].digest
          && (t.extensions[k].status.Activating? ==> after.extensions[k] == t.extensions[k]))
    && (forall k :: IsActive(after, k) && after.extensions[k].activation <= t.activations ==>
          IsActive(t, k) && t.extensions[k].activation == after.extensions[k].activation)
  }

  lemma EvolvesOnward(t: Tables, u: Tables, v: Tables)
    requires Evolves(t, u) && Evolves(u, v)
    ensures Evolves(t, v)
  {
  }

  /** The calls that start or stop something leave every context effect alone; only Activate activates. */
  lemma QuiesceEvolves(t: Tables, k: Key)
    ensures Evolves(t, Registry.Quiesce(t, k)) && Registry.Quiesce(t, k).effects == t.effects
    ensures forall j :: IsActive(Registry.Quiesce(t, k), j) ==> IsActive(t, j) && Registry.Quiesce(t, k).extensions[j] == t.extensions[j]
  {
  }

  lemma DisposeEvolves(t: Tables, k: Key, teardown: Outcome)
    ensures var after := Registry.Dispose(t, k, teardown).0;
      && Evolves(t, after) && after.effects == t.effects
      && forall j :: IsActive(after, j) ==> IsActive(t, j) && after.extensions[j] == t.extensions[j]
  {
  }

  lemma ActivateEvolves(t: Tables, k: Key, launch: Outcome)
    ensures var after := Registry.Activate(t, k, launch).0;
      && Evolves(t, after) && after.effects == t.effects
      && forall j :: IsActive(after, j) && !(IsActive(t, j) && after.extensions[j] == t.extensions[j]) ==>
           j == k && k in t.extensions && !t.extensions[k].status.Active? && !t.extensions[k].status.Quiescing?
  {
  }

  lemma RollbackEvolves(t: Tables, from: Key, to: Key, teardown: Outcome, launch: Outcome)
    ensures Evolves(t, Registry.Rollback(t, from, to, teardown, launch))
    ensures Registry.Rollback(t, from, to, teardown, launch).effects == t.effects
  {
    QuiesceEvolves(t, from);
    var quiesced := Registry.Quiesce(t, from);
    DisposeEvolves(quiesced, from, teardown);
    var disposed := Registry.Dispose(quiesced, from, teardown).0;
    ActivateEvolves(disposed, to, launch);
    EvolvesOnward(t, quiesced, disposed);
    EvolvesOnward(t, disposed, Registry.Activate(disposed, to, launch).0);
  }

  lemma AddingEvolves(t: Tables, after: Tables, k: Key, e: Extension)
    requires k !in t.extensions && !e.status.Active? && after.activations == t.activations
    requires after.extensions == t.extensions[k := e]
    ensures Evolves(t, after)
  {
  }

  lemma DiscoverEvolves(t: Tables, m: Manifest, valid: bool, signed: bool)
    ensures Evolves(t, Registry.Discover(t, m, valid, signed).0)
    ensures Registry.Discover(t, m, valid, signed).0.effects == t.effects
  {
    var after := Registry.Discover(t, m, valid, signed).0;
    DiscoverAdds(t, m, valid, signed);
    if after != t {
      AddingEvolves(t, after, m.key, after.extensions[m.key]);
    }
  }

  lemma NextEvolves(t: Tables, ev: Event)
    ensures Evolves(t, Next(t, ev)) && C.Grows(t.effects, Next(t, ev).effects)
    ensures !ev.RegisterEffect? && !ev.DisposeEffect? ==> Next(t, ev).effects == t.effects
  {
    match ev
    case Discover(m, valid, signed) => DiscoverEvolves(t, m, valid, signed);
    case Activate(k, launch) => ActivateEvolves(t, k, launch);
    case Quiesce(k) => QuiesceEvolves(t, k);
    case Dispose(k, teardown) => DisposeEvolves(t, k, teardown);
    case Rollback(from, to, teardown, launch) => RollbackEvolves(t, from, to, teardown, launch);
    case _ =>
  }

  lemma {:induction false} RunEvolves(t: Tables, events: seq<Event>)
    ensures Evolves(t, Run(t, events)) && C.Grows(t.effects, Run(t, events).effects)
    decreases |events|
  {
    if events != [] {
      NextEvolves(t, events[0]);
      RunEvolves(Next(t, events[0]), events[1..]);
      EvolvesOnward(t, Next(t, events[0]), Run(t, events));
    }
  }

  // ---- dependency closure ------------------------------------------------------------------------------

  lemma InvHolds(events: seq<Event>)
    ensures Inv(Run(EMPTY, events))
  {
    EmptyIsOk();
    RunKeepsInv(EMPTY, events);
  }

  lemma RunInTwo(events: seq<Event>, i: nat)
    requires i <= |events|
    ensures Run(EMPTY, events) == Run(Run(EMPTY, events[..i]), events[i..])
  {
    assert events == events[..i] + events[i..];
    RunOfAppend(EMPTY, events[..i], events[i..]);
  }

  lemma AtEachPoint(events: seq<Event>, i: nat)
    requires i <= |events|
    ensures Inv(Run(EMPTY, events[..i]))
    ensures Evolves(Run(EMPTY, events[..i]), Run(EMPTY, events))
    ensures C.Grows(Run(EMPTY, events[..i]).effects, Run(EMPTY, events).effects)
  {
    InvHolds(events[..i]);
    RunInTwo(events, i);
    RunEvolves(Run(EMPTY, events[..i]), events[i..]);
  }

  /** The extension is active, and this is still the activation numbered `n`. */
  predicate Under(t: Tables, k: Key, n: nat) {
    IsActive(t, k) && t.extensions[k].activation == n
  }

  /** At every point of the run since `a` was activated as it is now active, `b` serves it. */
  ghost predicate ServedThroughout(events: seq<Event>, a: Key, r: Requirement, b: Key)
    requires IsActive(Run(EMPTY, events), a)
  {
    var n := Run(EMPTY, events).extensions[a].activation;
    forall i :: 0 <= i <= |events| && Under(Run(EMPTY, events[..i]), a, n) ==> Serves(Run(EMPTY, events[..i]), b, a, r)
  }

  /** In every run, each non-optional requirement of each active extension is met inside its version range by some
      other active extension that was activated earlier and has stayed active, meeting it, at every point since. */
  lemma RequirementsAreMetThroughout(events: seq<Event>, a: Key, r: Requirement)
    requires IsActive(Run(EMPTY, events), a)
    requires r in Run(EMPTY, events).extensions[a].needs && !r.optional
    ensures exists b :: Serves(Run(EMPTY, events), b, a, r) && ServedThroughout(events, a, r, b)
  {
    var t := Run(EMPTY, events);
    InvHolds(events);
    assert Served(t, a, r);
    var b :| Serves(t, b, a, r);
    forall i | 0 <= i <= |events| && Under(Run(EMPTY, events[..i]), a, t.extensions[a].activation)
      ensures Serves(Run(EMPTY, events[..i]), b, a, r)
    {
      AtEachPoint(events, i);
    }
    assert ServedThroughout(events, a, r, b);
  }

  lemma ServedMeansSatisfied(t: Tables, k: Key, r: Requirement)
    requires k in t.extensions && !IsActive(t, k) && RowsAgree(t) && Served(Activated(t, k), k, r)
    ensures Satisfied(t, r)
  {
    var b :| Serves(Activated(t, k), b, k, r);
    var c :| c in t.extensions[b].capabilities && InRange(c, r);
    assert Meets(t, (b, c.id), r);
  }

  /** Whatever has happened in between, the write that marks an extension active keeps dependencies closed if and only
      if the requirements are met at the moment of the write. */
  lemma WriteKeepsClosureIffStillMet(u: Tables, a: Key)
    requires Inv(u) && a in u.extensions && !IsActive(u, a)
    ensures Closed(Activated(u, a)) <==> AllMet(u, u.extensions[a].needs)
  {
    if AllMet(u, u.extensions[a].needs) {
      ActivationKeepsClosure(u, a);
    }
    if Closed(Activated(u, a)) {
      forall r | r in u.extensions[a].needs && !r.optional ensures Satisfied(u, r) {
        assert Served(Activated(u, a), a, r);
        ServedMeansSatisfied(u, a, r);
      }
    }
  }

  /** The checks Activate makes before its first write. */
  predicate PassesChecks(t: Tables, k: Key) {
    && k in t.extensions && AllMet(t, t.extensions[k].needs)
    && (t.extensions[k].status.Discovered? || t.extensions[k].status.Disposed? || t.extensions[k].status.Failed?)
  }

  /** Closure needs calls to run one at a time: Activate checks the requirements and marks the row active in separate
      transactions. When any calls at all, on any extensions, run between its two writes, dependencies are closed
      afterwards if and only if the requirements are met at the second write too. */
  lemma CallsBetweenCheckAndWrite(t: Tables, a: Key, events: seq<Event>)
    requires Inv(t) && PassesChecks(t, a)
    ensures var u := Run(SetStatus(t, a, Activating), events);
      && a in u.extensions && !IsActive(u, a)
      && (Closed(Activated(u, a)) <==> AllMet(u, t.extensions[a].needs))
  {
    var began := SetStatus(t, a, Activating);
    assert C.Stack(t.effects, a) == [];
    InactiveChangeIsOk(t, a, Activating);
    RunKeepsInv(began, events);
    RunEvolves(began, events);
    WriteKeepsClosureIffStillMet(Run(began, events), a);
  }

  /** In every run the provided-capability table has, for each extension, one row for each capability its stored
      list names, and no other rows. */
  lemma ProvidedRowsAreTheStoredLists(events: seq<Event>, k: Key, c: Capability)
    ensures var t := Run(EMPTY, events);
      k in t.extensions && c in t.extensions[k].capabilities
      <==> (k, c.id) in t.provided && t.provided[(k, c.id)] == c
  {
    InvHolds(events);
  }

  // ---- context effects ---------------------------------------------------------------------------------

  /** What one call does to one extension's stack. */
  ghost function StackAfter(t: Tables, ev: Event, k: Key): seq<C.ContextEffect> {
    var s := C.Stack(t.effects, k);
    if ev.RegisterEffect? && ev.k == k && IsActive(t, k) && C.IsNew(t.effects, ev.id)
    then s + [C.NextRow(t.effects, k, ev.id, ev.kind, ev.ref)]
    else if ev.DisposeEffect? && ev.k == k && s != [] && s[|s| - 1].id == ev.id then s[..|s| - 1]
    else s
  }

  lemma RegisterIsAPush(t: Tables, ev: Event, k: Key)
    requires ev.RegisterEffect?
    ensures C.Stack(Next(t, ev).effects, k) == StackAfter(t, ev, k)
  {
    C.RegisterPushes(t.effects, ev.k, ev.id, ev.kind, ev.ref, k);
  }

  lemma DisposeIsAPop(t: Tables, ev: Event, k: Key)
    requires ev.DisposeEffect? && C.Ordered(t.effects)
    ensures C.Stack(Next(t, ev).effects, k) == StackAfter(t, ev, k)
  {
    C.DisposePopsTheTop(t.effects, ev.k, ev.id, k);
    assert Next(t, ev).effects == C.Dispose(t.effects, ev.k, ev.id).0;
  }

  /** The table refines one stack per extension: in every run, a register by an active extension pushes, a dispose
      of the top pops, and no other call touches any stack. */
  lemma EachCallIsOneStackStep(events: seq<Event>, ev: Event, k: Key)
    ensures C.Stack(Next(Run(EMPTY, events), ev).effects, k) == StackAfter(Run(EMPTY, events), ev, k)
  {
    var t := Run(EMPTY, events);
    InvHolds(events);
    if ev.RegisterEffect? {
      RegisterIsAPush(t, ev, k);
    } else if ev.DisposeEffect? {
      DisposeIsAPop(t, ev, k);
    } else {
      NextEvolves(t, ev);
    }
  }

  /** In every run a sequence number of an extension is used for one registration only, later registrations have
      greater ones, and no row is ever lost or renumbered. */
  lemma SequencesAreNeverReused(events: seq<Event>, i: nat)
    requires i <= |events|
    ensures C.Ordered(Run(EMPTY, events).effects)
    ensures C.Grows(Run(EMPTY, events[..i]).effects, Run(EMPTY, events).effects)
  {
    AtEachPoint(events, i);
    InvHolds(events);
  }

  /** `k` is active after the call under an activation it did not have before. */
  predicate NewlyActive(t: Tables, after: Tables, k: Key) {
    IsActive(after, k) && !(IsActive(t, k) && after.extensions[k] == t.extensions[k])
  }

  lemma NewlyActiveHadNoEffects(t: Tables, ev: Event, k: Key)
    requires StacksAreOwned(t) && NewlyActive(t, Next(t, ev), k)
    ensures C.Stack(t.effects, k) == [] && (ev.Activate? || ev.Rollback?)
  {
    match ev
    case Discover(m, valid, signed) => DiscoverAdds(t, m, valid, signed);
    case Activate(j, launch) => ActivateEvolves(t, j, launch);
    case Quiesce(j) => QuiesceEvolves(t, j);
    case Dispose(j, teardown) => DisposeEvolves(t, j, teardown);
    case Rollback(from, to, teardown, launch) => RollbackActivatesNothingElse(t, from, to, teardown, launch, k);
    case _ =>
  }

  lemma RollbackActivatesNothingElse(t: Tables, from: Key, to: Key, teardown: Outcome, launch: Outcome, k: Key)
    requires StacksAreOwned(t) && NewlyActive(t, Registry.Rollback(t, from, to, teardown, launch), k)
    ensures C.Stack(t.effects, k) == []
  {
    QuiesceEvolves(t, from);
    var quiesced := Registry.Quiesce(t, from);
    DisposeEvolves(quiesced, from, teardown);
    var disposed := Registry.Dispose(quiesced, from, teardown).0;
    ActivateEvolves(disposed, to, launch);
    assert k == to && to in disposed.extensions;
    if to == from {
      assert C.Stack(t.effects, from) == [];
    } else {
      assert disposed.extensions[to] == t.extensions[to];
    }
  }

  /** In every run an extension with outstanding context effects is active or quiescing, so every activation, also
      one that a rollback makes, starts from an empty stack. */
  lemma ActivationStartsFromAnEmptyStack(events: seq<Event>, ev: Event, k: Key)
    requires NewlyActive(Run(EMPTY, events), Next(Run(EMPTY, events), ev), k)
    ensures StacksAreOwned(Run(EMPTY, events))
    ensures C.Stack(Next(Run(EMPTY, events), ev).effects, k) == []
  {
    InvHolds(events);
    NewlyActiveHadNoEffects(Run(EMPTY, events), ev, k);
    NextEvolves(Run(EMPTY, events), ev);
  }

  // ---- discovery and rollback --------------------------------------------------------------------------

  /** Once a manifest is discovered, for every later run: discovering it again answers with its row and changes
      nothing, and any other manifest under the same id and version is refused. */
  lemma DiscoveryIsIdempotentAndBinding(before: seq<Event>, m: Manifest, later: seq<Event>, other: Manifest)
    requires Registry.Discover(Run(EMPTY, before), m, true, true).1.Success?
    requires other.key == m.key && Refusal(other, true, true).None?
    ensures var t := Run(Registry.Discover(Run(EMPTY, before), m, true, true).0, later);
      && m.key in t.extensions
      && Registry.Discover(t, other, true, true) ==
         (t, if other == m then Success(t.extensions[m.key]) else Failure(AlreadyExists))
  {
    RunEvolves(Registry.Discover(Run(EMPTY, before), m, true, true).0, later);
  }

  /** A rollback that goes through leaves the new version active under a new activation and, if it is another one, the
      old one disposed; one that does not go through has left the old version active only if it has changed nothing.
      No extension but the two is ever changed. */
  lemma RollbackOutcomes(t: Tables, from: Key, to: Key, teardown: Outcome, launch: Outcome)
    ensures var after := Registry.Rollback(t, from, to, teardown, launch);
      && (forall k :: k in t.extensions && k != from && k != to ==>
            k in after.extensions && after.extensions[k] == t.extensions[k])
      && (after.activations == t.activations && IsActive(after, from) ==> after == t)
      && (after.activations != t.activations ==>
            && IsActive(after, to) && after.extensions[to].activation == after.activations == t.activations + 1
            && (from != to ==> !IsActive(t, to) && after.extensions[from].status.Disposed?))
  {
    if CanQuiesce(t, from) {
      StoppedOutcome(t, from, teardown);
      var (stopped, r) := Registry.Dispose(Registry.Quiesce(t, from), from, teardown);
      if r.Success? {
        ActivateOutcome(stopped, to, launch);
      }
    }
  }

  /** Quiescing and disposing stops one extension and touches no other. */
  lemma StoppedOutcome(t: Tables, k: Key, teardown: Outcome)
    requires CanQuiesce(t, k)
    ensures var (stopped, r) := Registry.Dispose(Registry.Quiesce(t, k), k, teardown);
      && stopped.extensions.Keys == t.extensions.Keys && stopped.activations == t.activations && !IsActive(stopped, k)
      && (forall j :: j in t.extensions && j != k ==> stopped.extensions[j] == t.extensions[j])
      && (r.Success? ==> stopped.extensions[k].status.Disposed?)
  {
  }

  /** Activating touches one extension, which it leaves active exactly when it counts one more activation, or when it
      was refused because it was active. */
  lemma ActivateOutcome(t: Tables, k: Key, launch: Outcome)
    ensures var after := Registry.Activate(t, k, launch).0;
      && after.extensions.Keys == t.extensions.Keys
      && (forall j :: j in t.extensions && j != k ==> after.extensions[j] == t.extensions[j])
      && (after.activations == t.activations && IsActive(after, k) ==> after == t)
      && (after.activations != t.activations ==>
            IsActive(after, k) && !IsActive(t, k)
            && after.extensions[k].activation == after.activations == t.activations + 1)
  {
  }

  // ---- launches whose outcome is never written ---------------------------------------------------------

  /** A launch whose outcome is not written leaves the extension in activating, and no later call ever moves it. */
  lemma ActivatingIsForEver(t: Tables, k: Key, events: seq<Event>)
    requires k in t.extensions && t.extensions[k].status.Activating?
    ensures k in Run(t, events).extensions && Run(t, events).extensions[k] == t.extensions[k]
  {
    RunEvolves(t, events);
  }

  /** Some later run of calls makes the extension active. */
  ghost predicate CanBecomeActive(t: Tables, k: Key) {
    exists events :: IsActive(Run(t, events), k)
  }

  lemma StaysInactive(t: Tables, k: Key)
    requires k in t.extensions && t.extensions[k].status.Activating?
    ensures !CanBecomeActive(t, k)
  {
    forall events ensures !IsActive(Run(t, events), k) {
      ActivatingIsForEver(t, k, events);
    }
  }

  /** A failed launch leaves every check of a further Activate passing. */
  lemma FailedLaunchIsRetryable(t: Tables, k: Key)
    requires PassesChecks(t, k)
    ensures PassesChecks(SetStatus(t, k, Failed), k)
  {
    var after := SetStatus(t, k, Failed);
    forall r | r in t.extensions[k].needs && !r.optional ensures Satisfied(after, r) {
      assert Satisfied(t, r);
      var row :| row in t.provided && Meets(t, row, r);
      assert Meets(after, row, r);
    }
  }

  /** An extension that passes Activate's checks is, or can still become, active after the launch if and only if the
      status write that follows the launch lands: a launch recorded as failed can be retried, one that never returns
      or whose outcome, good or bad, is not recorded cannot. */
  lemma RetryableIffTheStatusWriteLands(t: Tables, k: Key, launch: Outcome)
    requires PassesChecks(t, k)
    ensures CanBecomeActive(Registry.Activate(t, k, launch).0, k) <==> StatusLands(launch)
  {
    var after := Registry.Activate(t, k, launch).0;
    match launch
    case Works =>
      assert IsActive(Run(after, []), k);
    case Fails =>
      FailedLaunchIsRetryable(t, k);
      assert [Activate(k, Works)][1..] == [];
      assert Run(after, [Activate(k, Works)]) == Run(Next(after, Activate(k, Works)), []);
      assert IsActive(Run(after, [Activate(k, Works)]), k);
    case Unwritten(_) => StaysInactive(after, k);
    case Dies => StaysInactive(after, k);
  }
}
