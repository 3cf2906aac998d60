/** The extension registry (daemon/extensions/registry.go): its tables and what each call does to them. Launching
    and tearing down are outcomes handed in: they can succeed, fail, go unrecorded, or take the daemon down with them. */
module Registry {
  import opened Wrappers
  import Semver
  import C = ContextEffects

  type Key = C.Key

  /** The core version a manifest's amhCore range is checked against. */
  const CORE_VERSION := "0.1.0"

  datatype Status = Discovered | Activating | Active | Quiescing | Disposed | Failed

  datatype Capability = Capability(id: string, version: string, contract: string)

  datatype Requirement = Requirement(capability: string, range: string, optional: bool)

  /** A manifest; `rest` is everything in it that the registry only stores. */
  datatype Manifest = Manifest(
    key: Key, capabilities: seq<Capability>, needs: seq<Requirement>, amhCore: string, rest: string)

  /** SHA-256 of the manifest's JSON, taken to be injective. */
  datatype Digest = Sha256(of: Manifest)

  /** One row of the extension table; `activation` numbers its last activation among all activations. */
  datatype Extension = Extension(
    capabilities: seq<Capability>, needs: seq<Requirement>, digest: Digest, status: Status, activation: nat)

  /** The extension table, the provided-capability table keyed by extension and capability id, the context-effect
      table, and the number of activations so far. */
  datatype Tables = Tables(
    extensions: map<Key, Extension>,
    provided: map<(Key, string), Capability>,
    effects: C.Table,
    activations: nat)

  const EMPTY := Tables(map[], map[], [], 0)

  datatype Error =
    | NotFound
    | InvalidManifest
    | IncompatibleCore
    | BadSignature
    | AlreadyExists
    | DuplicateCapability(id: string)
    | InvalidState(status: Status)
    | MissingRequirement(unmet: Requirement)
    | ActiveDependents(dependent: Key)
    | OutstandingContextEffects
    | LaunchFailed
    | TeardownFailed
    | StatusNotWritten
    | DaemonDied
    | EffectRefused(cause: C.Error)

  /** How a launch or teardown ends: it works or fails and the status write after it lands; it returns but that write
      does not land, because the database refuses it or the caller's context, which the write runs under, is already
      cancelled; or the daemon dies before it returns. */
  datatype Outcome = Works | Fails | Unwritten(worked: bool) | Dies

  predicate StatusLands(outcome: Outcome) {
    outcome.Works? || outcome.Fails?
  }

  // ---- queries -----------------------------------------------------------------------------------------

  predicate IsActive(t: Tables, k: Key) {
    k in t.extensions && t.extensions[k].status.Active?
  }

  /** A row of the join of provided capabilities with active extensions, inside the range. A version that does
      not parse is not inside any range. */
  predicate Meets(t: Tables, row: (Key, string), req: Requirement) {
    && row in t.provided && row.1 == req.capability && IsActive(t, row.0)
    && Semver.Satisfies(t.provided[row].version, req.range) == Success(true)
  }

  predicate Satisfied(t: Tables, req: Requirement) {
    exists row | row in t.provided :: Meets(t, row, req)
  }

  /** `e` cannot do without the capability. */
  predicate Needs(e: Extension, capability: string) {
    exists r | r in e.needs :: r.capability == capability && !r.optional
  }

  /** `a` is another active extension that cannot do without something `k` provides. */
  predicate DependsOn(t: Tables, a: Key, k: Key) {
    && a != k && IsActive(t, a) && k in t.extensions
    && exists p | p in t.extensions[k].capabilities :: Needs(t.extensions[a], p.id)
  }

  predicate HasDependents(t: Tables, k: Key) {
    exists a | a in t.extensions :: DependsOn(t, a, k)
  }

  predicate AllMet(t: Tables, needs: seq<Requirement>) {
    forall r | r in needs :: r.optional || Satisfied(t, r)
  }

  // ---- writes ------------------------------------------------------------------------------------------

  function SetStatus(t: Tables, k: Key, status: Status): Tables
    requires k in t.extensions
  {
    t.(extensions := t.extensions[k := t.extensions[k].(status := status)])
  }

  /** One row per provided capability, refused by the primary key on a second row for the same capability. */
  function Inserted(provided: map<(Key, string), Capability>, k: Key, caps: seq<Capability>)
    : Result<map<(Key, string), Capability>, Error>
    decreases |caps|
  {
    if caps == [] then Success(provided)
    else if (k, caps[0].id) in provided then Failure(DuplicateCapability(caps[0].id))
    else Inserted(provided[(k, caps[0].id) := caps[0]], k, caps[1..])
  }

  /** What is checked before the tables are looked at. `valid` and `signed` are what Validate and the signature
      check say about the manifest. */
  function Refusal(m: Manifest, valid: bool, signed: bool): Option<Error> {
    if !valid then Some(InvalidManifest)
    else if Semver.Satisfies(CORE_VERSION, m.amhCore) != Success(true) then Some(IncompatibleCore)
    else if !signed then Some(BadSignature)
    else None
  }

  function Discover(t: Tables, m: Manifest, valid: bool, signed: bool): (Tables, Result<Extension, Error>) {
    var refusal := Refusal(m, valid, signed);
    if refusal.Some? then (t, Failure(refusal.value))
    else if m.key in t.extensions then
      var e := t.extensions[m.key];
      (t, if e.digest == Sha256(m) then Success(e) else Failure(AlreadyExists))
    else
      match Inserted(t.provided, m.key, m.capabilities)
      case Failure(e) => (t, Failure(e))
      case Success(provided) =>
        var e := Extension(m.capabilities, m.needs, Sha256(m), Discovered, 0);
        (t.(extensions := t.extensions[m.key := e], provided := provided), Success(e))
  }

  /** The tables after the row is marked active. */
  function Activated(t: Tables, k: Key): Tables
    requires k in t.extensions
  {
    var n := t.activations + 1;
    t.(extensions := t.extensions[k := t.extensions[k].(status := Active, activation := n)], activations := n)
  }

  ghost function Activate(t: Tables, k: Key, launch: Outcome): (Tables, Result<(), Error>) {
    if k !in t.extensions then (t, Failure(NotFound))
    else
      var e := t.extensions[k];
      if !(e.status.Discovered? || e.status.Disposed? || e.status.Failed?) then (t, Failure(InvalidState(e.status)))
      else if !AllMet(t, e.needs) then (t, Failure(MissingRequirement(FirstUnmet(t, e.needs))))
      else
        match launch
        case Works => (Activated(t, k), Success(()))
        case Fails => (SetStatus(t, k, Failed), Failure(LaunchFailed))
        case Unwritten(worked) =>
          (SetStatus(t, k, Activating), Failure(if worked then StatusNotWritten else LaunchFailed))
        case Dies => (SetStatus(t, k, Activating), Failure(DaemonDied))
  }

  /** The first requirement, in manifest order, that nothing active meets. */
  function FirstUnmet(t: Tables, needs: seq<Requirement>): (r: Requirement)
    requires !AllMet(t, needs)
    ensures r in needs && !r.optional && !Satisfied(t, r)
  {
    if needs[0].optional || Satisfied(t, needs[0]) then FirstUnmet(t, needs[1..]) else needs[0]
  }

  /** Which dependent a refusal names depends on the order in which rows are read, so only its being one is
      promised. */
  predicate QuiesceRefuses(t: Tables, k: Key, e: Error) {
    if k !in t.extensions then e == NotFound
    else if !t.extensions[k].status.Active? then e == InvalidState(t.extensions[k].status)
    else e.ActiveDependents? && DependsOn(t, e.dependent, k)
  }

  predicate CanQuiesce(t: Tables, k: Key) {
    IsActive(t, k) && !HasDependents(t, k)
  }

  function Quiesce(t: Tables, k: Key): Tables {
    if CanQuiesce(t, k) then SetStatus(t, k, Quiescing) else t
  }

  function Dispose(t: Tables, k: Key, teardown: Outcome): (Tables, Result<(), Error>) {
    if k !in t.extensions then (t, Failure(NotFound))
    else if !t.extensions[k].status.Quiescing? then (t, Failure(InvalidState(t.extensions[k].status)))
    else if C.Stack(t.effects, k) != [] then (t, Failure(OutstandingContextEffects))
    else
      match teardown
      case Works => (SetStatus(t, k, Disposed), Success(()))
      case Fails => (SetStatus(t, k, Failed), Failure(TeardownFailed))
      case Unwritten(worked) => (t, Failure(if worked then StatusNotWritten else TeardownFailed))
      case Dies => (t, Failure(DaemonDied))
  }

  /** Quiesce, Dispose, Activate, stopping at the first that fails. */
  ghost function Rollback(t: Tables, from: Key, to: Key, teardown: Outcome, launch: Outcome): Tables {
    var quiesced := Quiesce(t, from);
    if !CanQuiesce(t, from) then quiesced
    else
      var (disposed, r) := Dispose(quiesced, from, teardown);
      if r.Failure? then disposed else Activate(disposed, to, launch).0
  }

  function RegisterContextEffect(t: Tables, k: Key, id: C.Id, kind: string, ref: string)
    : (Tables, Result<C.ContextEffect, Error>) {
    if k !in t.extensions then (t, Failure(NotFound))
    else if !t.extensions[k].status.Active? then (t, Failure(InvalidState(t.extensions[k].status)))
    else (t.(effects := C.Register(t.effects, k, id, kind, ref)), Success(C.NextRow(t.effects, k, id, kind, ref)))
  }

  function DisposeContextEffect(t: Tables, k: Key, id: C.Id): (Tables, Result<(), Error>) {
    match C.Dispose(t.effects, k, id)
    case (effects, Success(_)) => (t.(effects := effects), Success(()))
    case (_, Failure(e)) => (t, Failure(EffectRefused(e)))
  }
}
