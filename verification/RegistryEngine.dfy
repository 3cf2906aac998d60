/** The extension registry as an object over its tables: each call does its queries and updates one by one, and
    is proved to do what Registry says. */
module RegistryEngine {
  import opened Wrappers
  import opened Registry
  import Semver
  import C = ContextEffects

  class Engine {
    var extensions: map<Key, Extension>
    var provided: map<(Key, string), Capability>
    var effects: C.Table
    var activations: nat

    ghost function Contents(): Tables
      reads this
    {
      Tables(extensions, provided, effects, activations)
    }

    constructor ()
      ensures Contents() == EMPTY
    {
      extensions, provided, effects, activations := map[], map[], [], 0;
    }

    method Discover(m: Manifest, valid: bool, signed: bool) returns (r: Result<Extension, Error>)
      modifies this
      ensures (Contents(), r) == Registry.Discover(old(Contents()), m, valid, signed)
    {
      if !valid {
        return Failure(InvalidManifest);
      }
      var compatible := Semver.SatisfiesRange(CORE_VERSION, m.amhCore);
      if compatible.Failure? || !compatible.value {
        return Failure(IncompatibleCore);
      }
      if !signed {
        return Failure(BadSignature);
      }
      if m.key in extensions {
        if extensions[m.key].digest == Sha256(m) {
          return Success(extensions[m.key]);
        }
        return Failure(AlreadyExists);
      }
      var rows := provided;
      for i := 0 to |m.capabilities|
        invariant Contents() == old(Contents())
        invariant Inserted(provided, m.key, m.capabilities) == Inserted(rows, m.key, m.capabilities[i..])
      {
        if (m.key, m.capabilities[i].id) in rows {
          return Failure(DuplicateCapability(m.capabilities[i].id));
        }
        rows := rows[(m.key, m.capabilities[i].id) := m.capabilities[i]];
      }
      extensions := extensions[m.key := Extension(m.capabilities, m.needs, Sha256(m), Discovered, 0)];
      provided := rows;
      return Success(extensions[m.key]);
    }

    /** requirementSatisfied: rows in whatever order they come, until one is inside the range. */
    method RequirementSatisfied(req: Requirement) returns (ok: bool)
      ensures ok == Satisfied(Contents(), req)
    {
      var unread := provided.Keys;
      while unread != {}
        invariant unread <= provided.Keys
        invariant forall row :: row in provided && row !in unread ==> !Meets(Contents(), row, req)
        decreases |unread|
      {
        var row :| row in unread;
        unread := unread - {row};
        if row.1 == req.capability && row.0 in extensions && extensions[row.0].status == Active {
          var inRange := Semver.SatisfiesRange(provided[row].version, req.range);
          if inRange == Success(true) {
            assert Meets(Contents(), row, req);
            return true;
          }
        }
      }
      return false;
    }

    method Activate(k: Key, launch: Outcome) returns (r: Result<(), Error>)
      modifies this
      ensures (Contents(), r) == Registry.Activate(old(Contents()), k, launch)
    {
      if k !in extensions {
        return Failure(NotFound);
      }
      var e := extensions[k];
      if e.status != Discovered && e.status != Disposed && e.status != Failed {
        return Failure(InvalidState(e.status));
      }
      for i := 0 to |e.needs|
        invariant Contents() == old(Contents())
        invariant AllMet(Contents(), e.needs) == AllMet(Contents(), e.needs[i..])
        invariant !AllMet(Contents(), e.needs) ==>
            FirstUnmet(Contents(), e.needs) == FirstUnmet(Contents(), e.needs[i..])
      {
        assert e.needs[i..] == [e.needs[i]] + e.needs[i + 1..];
        if !e.needs[i].optional {
          var met := RequirementSatisfied(e.needs[i]);
          if !met {
            return Failure(MissingRequirement(e.needs[i]));
          }
        }
      }
      extensions := extensions[k := e.(status := Activating)];
      match launch {
        case Dies =>
          return Failure(DaemonDied);
        case Unwritten(worked) =>
          return Failure(if worked then StatusNotWritten else LaunchFailed);
        case Fails =>
          extensions := extensions[k := e.(status := Failed)];
          assert extensions == old(extensions)[k := extensions[k]];
          return Failure(LaunchFailed);
        case Works =>
          activations := activations + 1;
          extensions := extensions[k := e.(status := Active, activation := activations)];
          assert extensions == old(extensions)[k := extensions[k]];
          return Success(());
      }
    }

    /** activeDependents: every active extension that cannot do without the capability, each once. */
    method Dependents(capability: string) returns (out: seq<Key>)
      ensures forall a :: a in out <==> IsActive(Contents(), a) && Needs(extensions[a], capability)
      ensures forall i, j :: 0 <= i < j < |out| ==> out[i] != out[j]
    {
      out := [];
      var unread := extensions.Keys;
      while unread != {}
        invariant unread <= extensions.Keys
        invariant forall a :: a in out <==>
            a in extensions && a !in unread && extensions[a].status.Active? && Needs(extensions[a], capability)
        invariant forall i, j :: 0 <= i < j < |out| ==> out[i] != out[j]
        decreases |unread|
      {
        var a :| a in unread;
        unread := unread - {a};
        if extensions[a].status == Active {
          var needs := extensions[a].needs;
          var i := 0;
          while i < |needs| && (needs[i].capability != capability || needs[i].optional)
            invariant 0 <= i <= |needs|
            invariant forall j :: 0 <= j < i ==> needs[j].capability != capability || needs[j].optional
          {
            i := i + 1;
          }
          if i < |needs| {
            assert needs[i] in needs;
            out := out + [a];
          }
        }
      }
    }

    method Quiesce(k: Key) returns (r: Result<(), Error>)
      modifies this
      ensures Contents() == Registry.Quiesce(old(Contents()), k)
      ensures r.Success? <==> CanQuiesce(old(Contents()), k)
      ensures r.Failure? ==> QuiesceRefuses(old(Contents()), k, r.error)
    {
      if k !in extensions {
        return Failure(NotFound);
      }
      var e := extensions[k];
      if e.status != Active {
        return Failure(InvalidState(e.status));
      }
      for i := 0 to |e.capabilities|
        invariant Contents() == old(Contents())
        invariant forall a, j :: IsActive(Contents(), a) && a != k && 0 <= j < i ==>
            !Needs(extensions[a], e.capabilities[j].id)
      {
        var dependents := Dependents(e.capabilities[i].id);
        for d := 0 to |dependents|
          invariant Contents() == old(Contents())
          invariant forall c :: 0 <= c < d ==> dependents[c] == k
        {
          if dependents[d] != k {
            var a := dependents[d];
            assert a in dependents;
            assert e.capabilities[i] in e.capabilities;
            assert DependsOn(Contents(), a, k);
            return Failure(ActiveDependents(a));
          }
        }
      }
      extensions := extensions[k := e.(status := Quiescing)];
      return Success(());
    }

    method Dispose(k: Key, teardown: Outcome) returns (r: Result<(), Error>)
      modifies this
      ensures (Contents(), r) == Registry.Dispose(old(Contents()), k, teardown)
    {
      if k !in extensions {
        return Failure(NotFound);
      }
      var e := extensions[k];
      if e.status != Quiescing {
        return Failure(InvalidState(e.status));
      }
      var outstanding := ListOutstandingContextEffects(k);
      if |outstanding| > 0 {
        return Failure(OutstandingContextEffects);
      }
      match teardown {
        case Dies =>
          return Failure(DaemonDied);
        case Unwritten(worked) =>
          return Failure(if worked then StatusNotWritten else TeardownFailed);
        case Fails =>
          extensions := extensions[k := e.(status := Failed)];
          return Failure(TeardownFailed);
        case Works =>
          extensions := extensions[k := e.(status := Disposed)];
          return Success(());
      }
    }

    method Rollback(from: Key, to: Key, teardown: Outcome, launch: Outcome) returns (r: Result<(), Error>)
      modifies this
      ensures Contents() == Registry.Rollback(old(Contents()), from, to, teardown, launch)
      ensures r.Success? <==>
        && CanQuiesce(old(Contents()), from)
        && var (disposed, d) := Registry.Dispose(Registry.Quiesce(old(Contents()), from), from, teardown);
           d.Success? && Registry.Activate(disposed, to, launch).1.Success?
    {
      r := Quiesce(from);
      if r.Failure? {
        return;
      }
      r := Dispose(from, teardown);
      if r.Failure? {
        return;
      }
      r := Activate(to, launch);
    }

    method RegisterContextEffect(k: Key, id: C.Id, kind: string, ref: string)
      returns (r: Result<C.ContextEffect, Error>)
      modifies this
      ensures (Contents(), r) == Registry.RegisterContextEffect(old(Contents()), k, id, kind, ref)
    {
      if k !in extensions {
        return Failure(NotFound);
      }
      if extensions[k].status != Active {
        return Failure(InvalidState(extensions[k].status));
      }
      var max := 0;
      for i := 0 to |effects|
        invariant Contents() == old(Contents())
        invariant max == C.MaxSequence(effects[..i], k)
      {
        assert effects[..i + 1][..i] == effects[..i];
        if effects[i].owner == k && effects[i].sequence > max {
          max := effects[i].sequence;
        }
      }
      assert effects[..|effects|] == effects;
      var row := C.ContextEffect(id, k, max + 1, kind, ref, false);
      effects := effects + [row];
      return Success(row);
    }

    method DisposeContextEffect(k: Key, id: C.Id) returns (r: Result<(), Error>)
      modifies this
      ensures (Contents(), r) == Registry.DisposeContextEffect(old(Contents()), k, id)
    {
      var at := C.Find(effects, k, id);
      if at.None? {
        return Failure(EffectRefused(C.NotFound));
      }
      if effects[at.value].disposed {
        return Failure(EffectRefused(C.AlreadyDisposed));
      }
      var max: Option<nat> := None;
      for i := 0 to |effects|
        invariant Contents() == old(Contents())
        invariant max == C.MaxOutstanding(effects[..i], k)
      {
        assert effects[..i + 1][..i] == effects[..i];
        if effects[i].owner == k && !effects[i].disposed && (max.None? || effects[i].sequence > max.value) {
          max := Some(effects[i].sequence);
        }
      }
      assert effects[..|effects|] == effects;
      if max.None? || max.value != effects[at.value].sequence {
        return Failure(EffectRefused(C.NotMostRecentlyRegistered));
      }
      effects := effects[at.value := effects[at.value].(disposed := true)];
      return Success(());
    }

    method ListOutstandingContextEffects(k: Key) returns (out: seq<C.ContextEffect>)
      ensures out == C.Stack(effects, k)
    {
      out := [];
      for i := 0 to |effects|
        invariant out == C.Stack(effects[..i], k)
      {
        assert effects[..i + 1][..i] == effects[..i];
        if effects[i].owner == k && !effects[i].disposed {
          out := out + [effects[i]];
        }
      }
      assert effects[..|effects|] == effects;
    }
  }
}
