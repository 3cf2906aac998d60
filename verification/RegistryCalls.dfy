/** What each call to the extension registry answers and writes, status by status: what may be discovered, activated,
    quiesced and disposed, and what each leaves in the tables. */
module RegistryCalls {
  import opened Wrappers
  import opened Registry
  import opened RegistryRuns
  import Semver
  import C = ContextEffects

  // ---- discovery ---------------------------------------------------------------------------------------

  /** A manifest is refused before the tables are looked at if it is not valid, if its core range does not admit 0.1.0, or
      if it is not signed as it has to be; in that order. */
  lemma DiscoverRefusesInThisOrder(t: Tables, m: Manifest, valid: bool, signed: bool)
    ensures var (u, r) := Registry.Discover(t, m, valid, signed);
      var admits := Semver.Satisfies("0.1.0", m.amhCore) == Success(true);
      && (r == Failure(InvalidManifest) <==> !valid)
      && (r == Failure(IncompatibleCore) <==> valid && !admits)
      && (r == Failure(BadSignature) <==> valid && admits && !signed)
      && (!valid || !admits || !signed ==> u == t)
  {
    if valid && Semver.Satisfies("0.1.0", m.amhCore) == Success(true) && signed && m.key !in t.extensions {
      InsertionFails(t.provided, m.key, m.capabilities);
      InsertionErrors(t.provided, m.key, m.capabilities);
    }
  }

  lemma {:induction false} InsertionErrors(provided: map<(Key, string), Capability>, k: Key, caps: seq<Capability>)
    ensures Inserted(provided, k, caps).Failure? ==> Inserted(provided, k, caps).error.DuplicateCapability?
    decreases |caps|
  {
    if caps != [] && (k, caps[0].id) !in provided {
      InsertionErrors(provided[(k, caps[0].id) := caps[0]], k, caps[1..]);
    }
  }

  predicate Admissible(m: Manifest, valid: bool, signed: bool) {
    valid && Semver.Satisfies("0.1.0", m.amhCore) == Success(true) && signed
  }

  /** The very same manifest is answered with the row that is there; another one under its id and version is refused. */
  lemma DiscoverAgain(t: Tables, m: Manifest, valid: bool, signed: bool)
    requires Admissible(m, valid, signed) && m.key in t.extensions
    ensures Registry.Discover(t, m, valid, signed) ==
      (t, if t.extensions[m.key].digest == Sha256(m) then Success(t.extensions[m.key]) else Failure(AlreadyExists))
  {
  }

  /** No two of these are the same capability. */
  predicate DistinctCapabilities(caps: seq<Capability>) {
    forall i, j :: 0 <= i < j < |caps| ==> caps[i].id != caps[j].id
  }

  /** A new one is recorded as discovered, with one provided row for each of its capabilities, if these have different ids;
      otherwise nothing is. */
  lemma DiscoverRecordsTheNew(t: Tables, m: Manifest, valid: bool, signed: bool)
    requires Inv(t) && Admissible(m, valid, signed) && m.key !in t.extensions
    ensures var (u, r) := Registry.Discover(t, m, valid, signed);
      && (r.Success? <==> DistinctCapabilities(m.capabilities))
      && (r.Failure? ==> u == t && r.error.DuplicateCapability?)
      && (r.Success? ==>
            && r.value == Extension(m.capabilities, m.needs, Sha256(m), Discovered, 0)
            && u.extensions == t.extensions[m.key := r.value] && u.effects == t.effects && u.activations == t.activations
            && (forall row :: row in t.provided ==> row in u.provided && u.provided[row] == t.provided[row])
            && (forall c :: c in m.capabilities ==> (m.key, c.id) in u.provided && u.provided[(m.key, c.id)] == c)
            && forall row :: row in u.provided && row !in t.provided ==>
                 row.0 == m.key && exists c :: c in m.capabilities && c.id == row.1)
  {
    InsertionFails(t.provided, m.key, m.capabilities);
    InsertionErrors(t.provided, m.key, m.capabilities);
    InsertedRows(t.provided, m.key, m.capabilities);
  }

  // ---- activation --------------------------------------------------------------------------------------

  /** Some active extension provides the capability in a version that parses and is inside the range. */
  ghost predicate Provided(t: Tables, capability: string, range: string) {
    exists k, id ::
      && (k, id) in t.provided && id == capability && k in t.extensions && t.extensions[k].status == Active
      && Semver.Satisfies(t.provided[(k, id)].version, range) == Success(true)
  }

  lemma SatisfiedMeansProvided(t: Tables, r: Requirement)
    ensures Satisfied(t, r) <==> Provided(t, r.capability, r.range)
  {
    if Satisfied(t, r) {
      var row :| row in t.provided && Meets(t, row, r);
      assert (row.0, row.1) == row;
    }
    if Provided(t, r.capability, r.range) {
      var k, id :| && (k, id) in t.provided && id == r.capability && k in t.extensions && t.extensions[k].status == Active
                   && Semver.Satisfies(t.provided[(k, id)].version, r.range) == Success(true);
      assert Meets(t, (k, id), r);
    }
  }

  /** A non-optional requirement of the extension that nothing active provides. */
  ghost predicate Lacks(t: Tables, k: Key, r: Requirement)
    requires k in t.extensions
  {
    r in t.extensions[k].needs && !r.optional && !Provided(t, r.capability, r.range)
  }

  lemma AllMetIfNothingLacks(t: Tables, k: Key)
    requires k in t.extensions && forall r :: !Lacks(t, k, r)
    ensures AllMet(t, t.extensions[k].needs)
  {
    forall r | r in t.extensions[k].needs && !r.optional ensures Satisfied(t, r) {
      assert !Lacks(t, k, r);
      SatisfiedMeansProvided(t, r);
    }
  }

  /** Activate goes ahead exactly for an extension that is discovered, disposed or failed and lacks nothing. Then a launch
      that works makes it active, under the next activation number; one that fails makes it failed; one whose outcome is
      not written, or that takes the daemon down, leaves it activating. No other row changes. */
  lemma ActivateLaunchesTheReady(t: Tables, k: Key, launch: Outcome)
    requires k in t.extensions && t.extensions[k].status in {Discovered, Disposed, Failed}
    requires forall r :: !Lacks(t, k, r)
    ensures var (u, r) := Registry.Activate(t, k, launch);
      && u.provided == t.provided && u.effects == t.effects
      && (launch == Works ==>
            && r == Success(()) && u.activations == t.activations + 1
            && u.extensions == t.extensions[k := t.extensions[k].(status := Active, activation := t.activations + 1)])
      && (launch != Works ==>
            && r.Failure? && u.activations == t.activations
            && u.extensions == t.extensions[k := t.extensions[k].(status := if launch == Fails then Failed else Activating)])
  {
    AllMetIfNothingLacks(t, k);
  }

  /** The first requirement in manifest order that the extension lacks. */
  ghost predicate FirstLacking(t: Tables, k: Key, r: Requirement)
    requires k in t.extensions
  {
    exists i :: 0 <= i < |t.extensions[k].needs| && IsFirstLacking(t, k, i) && t.extensions[k].needs[i] == r
  }

  ghost predicate IsFirstLacking(t: Tables, k: Key, i: int)
    requires k in t.extensions && 0 <= i < |t.extensions[k].needs|
  {
    Lacks(t, k, t.extensions[k].needs[i]) && forall j :: 0 <= j < i ==> !Lacks(t, k, t.extensions[k].needs[j])
  }

  lemma {:induction false} FirstUnmetIsFirst(t: Tables, needs: seq<Requirement>) returns (i: nat)
    requires !AllMet(t, needs)
    ensures i < |needs| && needs[i] == FirstUnmet(t, needs) && !needs[i].optional && !Satisfied(t, needs[i])
    ensures forall j :: 0 <= j < i ==> needs[j].optional || Satisfied(t, needs[j])
  {
    if needs[0].optional || Satisfied(t, needs[0]) {
      var k := FirstUnmetIsFirst(t, needs[1..]);
      i := k + 1;
      assert forall j :: 0 < j < i ==> needs[j] == needs[1..][j - 1];
    } else {
      i := 0;
    }
  }

  /** What the caller is told about a launch that did not make the extension active. */
  lemma ActivateReportsTheLaunch(t: Tables, k: Key, launch: Outcome)
    requires k in t.extensions && t.extensions[k].status in {Discovered, Disposed, Failed}
    requires forall r :: !Lacks(t, k, r)
    ensures Registry.Activate(t, k, launch).1 ==
      match launch
      case Works => Success(())
      case Fails => Failure(LaunchFailed)
      case Unwritten(worked) => Failure(if worked then StatusNotWritten else LaunchFailed)
      case Dies => Failure(DaemonDied)
  {
    AllMetIfNothingLacks(t, k);
  }

  /** Every other one is refused, unknown, in another status, or for a requirement it lacks, and nothing changes. */
  lemma ActivateRefusesTheOthers(t: Tables, k: Key, launch: Outcome)
    ensures var (u, r) := Registry.Activate(t, k, launch);
      && (r == Failure(NotFound) <==> k !in t.extensions)
      && (k in t.extensions && t.extensions[k].status in {Activating, Active, Quiescing} ==>
            r == Failure(InvalidState(t.extensions[k].status)) && u == t)
      && (k in t.extensions && t.extensions[k].status in {Discovered, Disposed, Failed} && (exists q :: Lacks(t, k, q)) ==>
            r.Failure? && r.error.MissingRequirement? && FirstLacking(t, k, r.error.unmet) && u == t)
  {
    if k in t.extensions {
      var needs := t.extensions[k].needs;
      forall q | q in needs ensures Satisfied(t, q) <==> Provided(t, q.capability, q.range) {
        SatisfiedMeansProvided(t, q);
      }
      if !AllMet(t, needs) {
        var i := FirstUnmetIsFirst(t, needs);
        assert IsFirstLacking(t, k, i);
      }
    }
  }

  // ---- quiescing and disposing ---------------------------------------------------------------------------

  /** `a` is another active extension with a non-optional requirement for a capability id that `k` provides. */
  ghost predicate Holds(t: Tables, a: Key, k: Key) {
    && a != k && a in t.extensions && t.extensions[a].status == Active && k in t.extensions
    && exists p, r ::
         && p in t.extensions[k].capabilities && r in t.extensions[a].needs
         && r.capability == p.id && !r.optional
  }

  lemma DependingIsHolding(t: Tables, a: Key, k: Key)
    ensures DependsOn(t, a, k) <==> Holds(t, a, k)
  {
    if DependsOn(t, a, k) {
      var p :| p in t.extensions[k].capabilities && Needs(t.extensions[a], p.id);
      var r :| r in t.extensions[a].needs && r.capability == p.id && !r.optional;
    }
    if Holds(t, a, k) {
      var p, r :| && p in t.extensions[k].capabilities && r in t.extensions[a].needs
                  && r.capability == p.id && !r.optional;
      assert Needs(t.extensions[a], p.id);
    }
  }

  /** Quiesce takes exactly an active extension that no other one holds, whatever the version ranges; it changes that row's
      status alone. */
  lemma QuiesceTakesTheUnheld(t: Tables, k: Key)
    ensures CanQuiesce(t, k) <==> k in t.extensions && t.extensions[k].status == Active && forall a :: !Holds(t, a, k)
    ensures Registry.Quiesce(t, k) ==
      if CanQuiesce(t, k) then t.(extensions := t.extensions[k := t.extensions[k].(status := Quiescing)]) else t
    ensures forall e :: QuiesceRefuses(t, k, e) ==>
      || (e == NotFound && k !in t.extensions)
      || (k in t.extensions && t.extensions[k].status != Active && e == InvalidState(t.extensions[k].status))
      || (e.ActiveDependents? && Holds(t, e.dependent, k))
  {
    forall a ensures DependsOn(t, a, k) <==> Holds(t, a, k) {
      DependingIsHolding(t, a, k);
    }
  }

  /** A context effect of the extension that is not disposed. */
  predicate HasOutstanding(t: Tables, k: Key) {
    exists i | 0 <= i < |t.effects| :: t.effects[i].owner == k && !t.effects[i].disposed
  }

  lemma {:induction false} StackIsEmptyIffNoneOutstanding(effects: C.Table, k: Key)
    ensures C.Stack(effects, k) == [] <==> forall i :: 0 <= i < |effects| && effects[i].owner == k ==> effects[i].disposed
  {
    if effects != [] {
      var rest := effects[..|effects| - 1];
      StackIsEmptyIffNoneOutstanding(rest, k);
      assert forall i :: 0 <= i < |rest| ==> rest[i] == effects[i];
    }
  }

  /** Dispose takes exactly a quiescing extension without outstanding context effects. A teardown that works makes it
      disposed, one that fails failed; one whose outcome is not written, or that takes the daemon down, leaves it
      quiescing. Nothing else ever changes. */
  lemma DisposeTakesTheEmpty(t: Tables, k: Key, teardown: Outcome)
    ensures var (u, r) := Registry.Dispose(t, k, teardown);
      && (r == Failure(NotFound) <==> k !in t.extensions)
      && (k in t.extensions ==>
            && (t.extensions[k].status != Quiescing ==> r == Failure(InvalidState(t.extensions[k].status)) && u == t)
            && (t.extensions[k].status == Quiescing && HasOutstanding(t, k) ==>
                  r == Failure(OutstandingContextEffects) && u == t)
            && (t.extensions[k].status == Quiescing && !HasOutstanding(t, k) ==>
                  && (r.Success? <==> teardown == Works)
                  && u == if teardown == Works then SetStatus(t, k, Disposed)
                          else if teardown == Fails then SetStatus(t, k, Failed) else t))
  {
    StackIsEmptyIffNoneOutstanding(t.effects, k);
  }

  // ---- context effects -----------------------------------------------------------------------------------

  /** How many effects the extension ever registered. */
  function Registered(effects: C.Table, k: Key): nat {
    if effects == [] then 0
    else Registered(effects[..|effects| - 1], k) + if effects[|effects| - 1].owner == k then 1 else 0
  }

  /** The sequences of an extension count up from one. */
  predicate CountsUp(effects: C.Table) {
    forall i :: 0 <= i < |effects| ==> effects[i].sequence == Registered(effects[..i], effects[i].owner) + 1
  }

  lemma {:induction false} LargestIsTheCount(effects: C.Table, k: Key)
    requires CountsUp(effects)
    ensures C.MaxSequence(effects, k) == Registered(effects, k)
  {
    if effects != [] {
      var rest := effects[..|effects| - 1];
      assert forall i :: 0 <= i < |rest| ==> rest[..i] == effects[..i] && rest[i] == effects[i];
      LargestIsTheCount(rest, k);
      assert effects[|effects| - 1].sequence == Registered(rest, effects[|effects| - 1].owner) + 1;
    }
  }

  lemma {:induction false} DisposingCountsTheSame(effects: C.Table, at: nat, k: Key)
    requires at < |effects|
    ensures Registered(effects[at := effects[at].(disposed := true)], k) == Registered(effects, k)
    decreases |effects|
  {
    var last := |effects| - 1;
    var marked := effects[at := effects[at].(disposed := true)];
    if at == last {
      assert marked[..last] == effects[..last];
    } else {
      DisposingCountsTheSame(effects[..last], at, k);
      assert marked[..last] == effects[..last][at := effects[..last][at].(disposed := true)];
    }
  }

  lemma DisposeCountsUp(effects: C.Table, at: nat)
    requires CountsUp(effects) && at < |effects|
    ensures CountsUp(effects[at := effects[at].(disposed := true)])
  {
    var marked := effects[at := effects[at].(disposed := true)];
    forall i | 0 <= i < |marked| ensures marked[i].sequence == Registered(marked[..i], marked[i].owner) + 1 {
      if at < i {
        DisposingCountsTheSame(effects[..i], at, effects[i].owner);
        assert marked[..i] == effects[..i][at := effects[..i][at].(disposed := true)];
      } else {
        assert marked[..i] == effects[..i];
      }
    }
  }

  lemma RegisterCountsUp(effects: C.Table, k: Key, id: C.Id, kind: string, ref: string)
    requires CountsUp(effects)
    ensures CountsUp(C.Register(effects, k, id, kind, ref))
  {
    LargestIsTheCount(effects, k);
    var more := C.Register(effects, k, id, kind, ref);
    forall i | 0 <= i < |more| ensures more[i].sequence == Registered(more[..i], more[i].owner) + 1 {
      assert more[..i] == if i < |effects| then effects[..i] else effects;
    }
  }

  /** An active extension registers an effect as the next of its own, not disposed; nothing else changes. Any other one is
      refused. */
  lemma RegisterNumbersTheNext(t: Tables, k: Key, id: C.Id, kind: string, ref: string)
    requires CountsUp(t.effects)
    ensures var (u, r) := Registry.RegisterContextEffect(t, k, id, kind, ref);
      if k in t.extensions && t.extensions[k].status == Active
      then
        var row := C.ContextEffect(id, k, Registered(t.effects, k) + 1, kind, ref, false);
        r == Success(row) && u == t.(effects := t.effects + [row])
      else
        u == t && r == Failure(if k in t.extensions then InvalidState(t.extensions[k].status) else NotFound)
  {
    LargestIsTheCount(t.effects, k);
  }

  /** The errors of a dispose: no such effect of this extension, already disposed, or not the last one outstanding. */
  lemma DisposeNamesTheFault(t: Tables, k: Key, id: C.Id, at: nat)
    requires C.Ordered(t.effects) && at < |t.effects| && t.effects[at].id == id && t.effects[at].owner == k
    ensures var (u, r) := Registry.DisposeContextEffect(t, k, id);
      && (r == Failure(EffectRefused(C.AlreadyDisposed)) <==> t.effects[at].disposed)
      && (r == Failure(EffectRefused(C.NotMostRecentlyRegistered)) <==>
            !t.effects[at].disposed && exists i :: at < i < |t.effects| && t.effects[i].owner == k && !t.effects[i].disposed)
      && (r.Success? ==> u == t.(effects := t.effects[at := t.effects[at].(disposed := true)]))
      && (r.Failure? ==> u == t)
  {
    assert C.Find(t.effects, k, id) == Some(at);
    if !t.effects[at].disposed {
      LastOutstandingIsLargest(t.effects, k, at);
    }
  }

  lemma {:induction false} LastOutstandingIsLargest(effects: C.Table, k: Key, at: nat)
    requires C.Ordered(effects) && at < |effects| && effects[at].owner == k && !effects[at].disposed
    ensures C.MaxOutstanding(effects, k) == Some(effects[at].sequence) <==>
      forall i :: at < i < |effects| && effects[i].owner == k ==> effects[i].disposed
  {
    C.MaxOutstandingIsTop(effects, k);
    C.StackIsTheOutstandingRows(effects, k);
    var s := C.Stack(effects, k);
    assert effects[at] in s;
    var top := s[|s| - 1];
    assert top in s;
    var j :| 0 <= j < |effects| && effects[j] == top;
    if i :| at < i < |effects| && effects[i].owner == k && !effects[i].disposed {
      assert effects[i] in s;
    }
  }

  lemma DisposeOfAnUnknown(t: Tables, k: Key, id: C.Id)
    requires forall i :: 0 <= i < |t.effects| ==> t.effects[i].id != id || t.effects[i].owner != k
    ensures Registry.DisposeContextEffect(t, k, id) == (t, Failure(EffectRefused(C.NotFound)))
  {
  }

  // ---- over whole runs -----------------------------------------------------------------------------------

  lemma NextCountsUp(t: Tables, ev: Event)
    requires CountsUp(t.effects)
    ensures CountsUp(Next(t, ev).effects)
  {
    match ev
    case RegisterEffect(k, id, kind, ref) => RegisterCountsUp(t.effects, k, id, kind, ref);
    case DisposeEffect(k, id) =>
      var at := C.Find(t.effects, k, id);
      if at.Some? {
        DisposeCountsUp(t.effects, at.value);
      }
    case _ =>
  }

  lemma {:induction false} RunCountsUp(t: Tables, events: seq<Event>)
    requires CountsUp(t.effects)
    ensures CountsUp(Run(t, events).effects)
    decreases |events|
  {
    if events != [] {
      NextCountsUp(t, events[0]);
      RunCountsUp(Next(t, events[0]), events[1..]);
    }
  }

  /** In every serial run the effects of an extension are numbered 1, 2, 3 and so on in the order in which they were
      registered, disposed ones included. */
  lemma EffectsAreNumberedFromOne(events: seq<Event>, i: nat)
    requires i < |Run(EMPTY, events).effects|
    ensures var effects := Run(EMPTY, events).effects;
      effects[i].sequence == Registered(effects[..i], effects[i].owner) + 1
  {
    RunCountsUp(EMPTY, events);
  }
}
