/** Runs of the registry: any sequence of calls, one at a time, with launches and teardowns that succeed, fail or
    kill the daemon. */
module RegistryRuns {
  import opened Wrappers
  import opened Registry
  import Semver
  import C = ContextEffects

  datatype Event =
    | Discover(m: Manifest, valid: bool, signed: bool)
    | Activate(k: Key, launch: Outcome)
    | Quiesce(k: Key)
    | Dispose(k: Key, teardown: Outcome)
    | Rollback(from: Key, to: Key, teardown: Outcome, launch: Outcome)
    | RegisterEffect(k: Key, id: C.Id, kind: string, ref: string)
    | DisposeEffect(k: Key, id: C.Id)

  /** One call. A freshly drawn effect id is taken not to be in use. */
  ghost function Next(t: Tables, ev: Event): Tables {
    match ev
    case Discover(m, valid, signed) => Registry.Discover(t, m, valid, signed).0
    case Activate(k, launch) => Registry.Activate(t, k, launch).0
    case Quiesce(k) => Registry.Quiesce(t, k)
    case Dispose(k, teardown) => Registry.Dispose(t, k, teardown).0
    case Rollback(from, to, teardown, launch) => Registry.Rollback(t, from, to, teardown, launch)
    case RegisterEffect(k, id, kind, ref) =>
      if C.IsNew(t.effects, id) then RegisterContextEffect(t, k, id, kind, ref).0 else t
    case DisposeEffect(k, id) => DisposeContextEffect(t, k, id).0
  }

  ghost function Run(t: Tables, events: seq<Event>): Tables
    decreases |events|
  {
    if events == [] then t else Run(Next(t, events[0]), events[1..])
  }

  /** Every event of a run is the registry's call on the tables as they are then. */
  lemma EventsAreCalls(t: Tables, ev: Event)
    requires ev.RegisterEffect? ==> C.IsNew(t.effects, ev.id)
    ensures Next(t, ev) ==
      match ev
      case Discover(m, valid, signed) => Registry.Discover(t, m, valid, signed).0
      case Activate(k, launch) => Registry.Activate(t, k, launch).0
      case Quiesce(k) => Registry.Quiesce(t, k)
      case Dispose(k, teardown) => Registry.Dispose(t, k, teardown).0
      case Rollback(from, to, teardown, launch) => Registry.Rollback(t, from, to, teardown, launch)
      case RegisterEffect(k, id, kind, ref) => Registry.RegisterContextEffect(t, k, id, kind, ref).0
      case DisposeEffect(k, id) => Registry.DisposeContextEffect(t, k, id).0
  {
  }

  // ---- the invariant -----------------------------------------------------------------------------------

  /** The provided-capability table says exactly what the stored lists say. */
  ghost predicate RowsAgree(t: Tables) {
    && (forall row :: row in t.provided ==>
          && row.0 in t.extensions && t.provided[row] in t.extensions[row.0].capabilities
          && t.provided[row].id == row.1)
    && (forall k, c :: k in t.extensions && c in t.extensions[k].capabilities ==>
          (k, c.id) in t.provided && t.provided[(k, c.id)] == c)
  }

  predicate InRange(c: Capability, r: Requirement) {
    c.id == r.capability && Semver.Satisfies(c.version, r.range) == Success(true)
  }

  /** `b` is another active extension, activated before `a`, that provides what `r` asks for. */
  ghost predicate Serves(t: Tables, b: Key, a: Key, r: Requirement)
    requires a in t.extensions
  {
    && b != a && IsActive(t, b) && t.extensions[b].activation < t.extensions[a].activation
    && exists c :: c in t.extensions[b].capabilities && InRange(c, r)
  }

  ghost predicate Served(t: Tables, a: Key, r: Requirement)
    requires a in t.extensions
  {
    exists b :: Serves(t, b, a, r)
  }

  /** Dependency closure. */
  ghost predicate Closed(t: Tables) {
    forall a, r :: IsActive(t, a) && r in t.extensions[a].needs && !r.optional ==> Served(t, a, r)
  }

  ghost predicate Numbered(t: Tables) {
    && (forall k :: IsActive(t, k) ==> t.extensions[k].activation <= t.activations)
    && (forall a, b :: IsActive(t, a) && IsActive(t, b) && a != b ==>
          t.extensions[a].activation != t.extensions[b].activation)
  }

  /** Only an extension that is active or quiescing has context effects outstanding. */
  ghost predicate StacksAreOwned(t: Tables) {
    forall k :: C.Stack(t.effects, k) != [] ==>
      k in t.extensions && (t.extensions[k].status.Active? || t.extensions[k].status.Quiescing?)
  }

  ghost predicate Inv(t: Tables) {
    RowsAgree(t) && Closed(t) && Numbered(t) && C.Ordered(t.effects) && StacksAreOwned(t)
  }

  lemma EmptyIsOk()
    ensures Inv(EMPTY)
  {
  }

  // ---- discovery ---------------------------------------------------------------------------------------

  /** Inserting succeeds when the ids are new for the extension and different from one another; then the table has
      gained exactly one row for each. */
  lemma {:induction false} InsertedRows(provided: map<(Key, string), Capability>, k: Key, caps: seq<Capability>)
    ensures var r := Inserted(provided, k, caps);
      r.Success? ==>
        && (forall row :: row in provided ==> row in r.value && r.value[row] == provided[row])
        && (forall c :: c in caps ==> (k, c.id) in r.value && r.value[(k, c.id)] == c && (k, c.id) !in provided)
        && (forall row :: row in r.value && row !in provided ==>
              row.0 == k && r.value[row] in caps && r.value[row].id == row.1)
    decreases |caps|
  {
    if caps != [] && (k, caps[0].id) !in provided {
      InsertedRows(provided[(k, caps[0].id) := caps[0]], k, caps[1..]);
      assert caps == [caps[0]] + caps[1..];
    }
  }

  /** The only refusal the insertion knows is a capability listed twice, or already there. */
  lemma {:induction false} InsertionFails(provided: map<(Key, string), Capability>, k: Key, caps: seq<Capability>)
    ensures Inserted(provided, k, caps).Failure? <==>
      exists j :: 0 <= j < |caps| && ((k, caps[j].id) in provided || exists i :: 0 <= i < j && caps[i].id == caps[j].id)
    decreases |caps|
  {
    if caps != [] && (k, caps[0].id) !in provided {
      var more := provided[(k, caps[0].id) := caps[0]];
      InsertionFails(more, k, caps[1..]);
      if j :| 0 <= j < |caps[1..]| && ((k, caps[1..][j].id) in more || exists i :: 0 <= i < j && caps[1..][i].id == caps[1..][j].id) {
        assert caps[1..][j] == caps[j + 1];
        if i :| 0 <= i < j && caps[1..][i].id == caps[1..][j].id {
          assert caps[1..][i] == caps[i + 1];
        }
      }
      if j :| 0 <= j < |caps| && ((k, caps[j].id) in provided || exists i :: 0 <= i < j && caps[i].id == caps[j].id) {
        assert j > 0 && caps[1..][j - 1] == caps[j];
        if i :| 0 < i < j && caps[i].id == caps[j].id {
          assert caps[1..][i - 1] == caps[i];
        }
      }
    }
  }

  lemma DiscoverKeepsRows(t: Tables, m: Manifest, valid: bool, signed: bool)
    requires RowsAgree(t)
    ensures RowsAgree(Registry.Discover(t, m, valid, signed).0)
  {
    InsertedRows(t.provided, m.key, m.capabilities);
  }

  /** Discovery changes no extension that is already there and activates nothing. */
  lemma DiscoverAdds(t: Tables, m: Manifest, valid: bool, signed: bool)
    ensures var after := Registry.Discover(t, m, valid, signed).0;
      && after.effects == t.effects && after.activations == t.activations
      && (after == t || (m.key !in t.extensions && after.extensions ==
            t.extensions[m.key := Extension(m.capabilities, m.needs, Sha256(m), Discovered, 0)]))
  {
  }

  // ---- statuses ----------------------------------------------------------------------------------------

  /** A row that is not active before nor after matters to nobody's requirements. */
  lemma ClosureIgnoresInactive(t: Tables, after: Tables, k: Key)
    requires Closed(t) && !IsActive(t, k) && !IsActive(after, k)
    requires forall a :: a != k ==> (a in t.extensions <==> a in after.extensions)
    requires forall a :: a != k && a in t.extensions ==> after.extensions[a] == t.extensions[a]
    ensures Closed(after)
  {
    forall a, r | IsActive(after, a) && r in after.extensions[a].needs && !r.optional ensures Served(after, a, r) {
      assert Served(t, a, r);
      var b :| Serves(t, b, a, r);
      assert Serves(after, b, a, r);
    }
  }

  /** A newly active extension is served by what was active before it. */
  lemma ActivationIsServed(t: Tables, k: Key, r: Requirement)
    requires k in t.extensions && !IsActive(t, k) && RowsAgree(t) && Numbered(t) && Satisfied(t, r)
    ensures Served(Activated(t, k), k, r)
  {
    var row :| row in t.provided && Meets(t, row, r);
    var c := t.provided[row];
    assert c in t.extensions[row.0].capabilities && InRange(c, r);
    assert Serves(Activated(t, k), row.0, k, r);
  }

  lemma ActivationKeepsClosure(t: Tables, k: Key)
    requires k in t.extensions && !IsActive(t, k) && RowsAgree(t) && Numbered(t) && Closed(t)
    requires AllMet(t, t.extensions[k].needs)
    ensures Closed(Activated(t, k))
  {
    var after := Activated(t, k);
    forall a, r | IsActive(after, a) && r in after.extensions[a].needs && !r.optional ensures Served(after, a, r) {
      if a == k {
        ActivationIsServed(t, k, r);
      } else {
        assert Served(t, a, r);
        var b :| Serves(t, b, a, r);
        assert Serves(after, b, a, r);
      }
    }
  }

  lemma ServersHaveDependents(t: Tables, b: Key, a: Key, r: Requirement)
    requires IsActive(t, a) && r in t.extensions[a].needs && !r.optional && Serves(t, b, a, r)
    ensures HasDependents(t, b)
  {
    var c :| c in t.extensions[b].capabilities && InRange(c, r);
    assert Needs(t.extensions[a], c.id);
    assert DependsOn(t, a, b);
  }

  lemma QuiesceKeepsClosure(t: Tables, k: Key)
    requires Closed(t) && CanQuiesce(t, k)
    ensures Closed(SetStatus(t, k, Quiescing))
  {
    var after := SetStatus(t, k, Quiescing);
    forall a, r | IsActive(after, a) && r in after.extensions[a].needs && !r.optional ensures Served(after, a, r) {
      assert Served(t, a, r);
      var b :| Serves(t, b, a, r);
      ServersHaveDependents(t, b, a, r);
      assert Serves(after, b, a, r);
    }
  }

  // ---- each call keeps the invariant -------------------------------------------------------------------

  lemma DiscoverIsOk(t: Tables, m: Manifest, valid: bool, signed: bool)
    requires Inv(t)
    ensures Inv(Registry.Discover(t, m, valid, signed).0)
  {
    var after := Registry.Discover(t, m, valid, signed).0;
    DiscoverKeepsRows(t, m, valid, signed);
    DiscoverAdds(t, m, valid, signed);
    if after != t {
      AddedIsOk(t, after, m.key, after.extensions[m.key]);
    }
  }

  lemma AddedIsOk(t: Tables, after: Tables, k: Key, e: Extension)
    requires Inv(t) && k !in t.extensions && !e.status.Active? && RowsAgree(after)
    requires after.extensions == t.extensions[k := e] && after.effects == t.effects && after.activations == t.activations
    ensures Inv(after)
  {
    ClosureIgnoresInactive(t, after, k);
  }

  /** Changing the status of an extension that is not active, to anything but active. */
  lemma InactiveChangeIsOk(t: Tables, k: Key, status: Status)
    requires Inv(t) && k in t.extensions && !IsActive(t, k) && !status.Active?
    requires C.Stack(t.effects, k) == []
    ensures Inv(SetStatus(t, k, status))
  {
    ClosureIgnoresInactive(t, SetStatus(t, k, status), k);
    RowsIgnoreStatus(t, k, status);
  }

  lemma RowsIgnoreStatus(t: Tables, k: Key, status: Status)
    requires RowsAgree(t) && k in t.extensions
    ensures RowsAgree(SetStatus(t, k, status))
  {
  }

  lemma ActivateIsOk(t: Tables, k: Key, launch: Outcome)
    requires Inv(t)
    ensures Inv(Registry.Activate(t, k, launch).0)
  {
    if k in t.extensions && Registry.Activate(t, k, launch).0 != t {
      assert C.Stack(t.effects, k) == [];
      if launch.Works? {
        ActivationKeepsClosure(t, k);
      } else {
        InactiveChangeIsOk(t, k, if launch.Fails? then Failed else Activating);
      }
    }
  }

  lemma QuiesceIsOk(t: Tables, k: Key)
    requires Inv(t)
    ensures Inv(Registry.Quiesce(t, k))
  {
    if CanQuiesce(t, k) {
      QuiesceKeepsClosure(t, k);
    }
  }

  lemma DisposeIsOk(t: Tables, k: Key, teardown: Outcome)
    requires Inv(t)
    ensures Inv(Registry.Dispose(t, k, teardown).0)
  {
    var after := Registry.Dispose(t, k, teardown).0;
    if after != t {
      InactiveChangeIsOk(t, k, after.extensions[k].status);
    }
  }

  lemma RollbackIsOk(t: Tables, from: Key, to: Key, teardown: Outcome, launch: Outcome)
    requires Inv(t)
    ensures Inv(Registry.Rollback(t, from, to, teardown, launch))
  {
    QuiesceIsOk(t, from);
    var quiesced := Registry.Quiesce(t, from);
    DisposeIsOk(quiesced, from, teardown);
    ActivateIsOk(Registry.Dispose(quiesced, from, teardown).0, to, launch);
  }

  /** New context effects, same extensions. */
  lemma EffectsChangeIsOk(t: Tables, effects: C.Table)
    requires Inv(t) && C.Ordered(effects) && StacksAreOwned(t.(effects := effects))
    ensures Inv(t.(effects := effects))
  {
    var after := t.(effects := effects);
    forall a, r | IsActive(after, a) && r in after.extensions[a].needs && !r.optional ensures Served(after, a, r) {
      assert Served(t, a, r);
      var b :| Serves(t, b, a, r);
      assert Serves(after, b, a, r);
    }
  }

  lemma RegisterIsOk(t: Tables, k: Key, id: C.Id, kind: string, ref: string)
    requires Inv(t) && C.IsNew(t.effects, id)
    ensures Inv(RegisterContextEffect(t, k, id, kind, ref).0)
  {
    if IsActive(t, k) {
      C.RegisterKeepsOrder(t.effects, k, id, kind, ref);
      forall other {
        C.RegisterPushes(t.effects, k, id, kind, ref, other);
      }
      EffectsChangeIsOk(t, C.Register(t.effects, k, id, kind, ref));
    }
  }

  lemma DisposeEffectIsOk(t: Tables, k: Key, id: C.Id)
    requires Inv(t)
    ensures Inv(DisposeContextEffect(t, k, id).0)
  {
    C.DisposeKeepsOrder(t.effects, k, id);
    forall other {
      C.DisposePopsTheTop(t.effects, k, id, other);
    }
    EffectsChangeIsOk(t, C.Dispose(t.effects, k, id).0);
  }

  lemma NextKeepsInv(t: Tables, ev: Event)
    requires Inv(t)
    ensures Inv(Next(t, ev))
  {
    match ev
    case Discover(m, valid, signed) => DiscoverIsOk(t, m, valid, signed);
    case Activate(k, launch) => ActivateIsOk(t, k, launch);
    case Quiesce(k) => QuiesceIsOk(t, k);
    case Dispose(k, teardown) => DisposeIsOk(t, k, teardown);
    case Rollback(from, to, teardown, launch) => RollbackIsOk(t, from, to, teardown, launch);
    case RegisterEffect(k, id, kind, ref) =>
      if C.IsNew(t.effects, id) {
        RegisterIsOk(t, k, id, kind, ref);
      }
    case DisposeEffect(k, id) => DisposeEffectIsOk(t, k, id);
  }

  lemma {:induction false} RunKeepsInv(t: Tables, events: seq<Event>)
    requires Inv(t)
    ensures Inv(Run(t, events))
    decreases |events|
  {
    if events != [] {
      NextKeepsInv(t, events[0]);
      RunKeepsInv(Next(t, events[0]), events[1..]);
    }
  }
}
