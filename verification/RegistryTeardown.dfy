/** When everything that is active can be quiesced again, and in which order. */
module RegistryTeardown {
  import opened Wrappers
  import opened Registry
  import opened RegistryRuns
  import Semver
  import SemverTheorems
  import RegistryTheorems
  import C = ContextEffects

  /** Quiesce these, in this order. */
  function QuiesceAll(t: Tables, order: seq<Key>): Tables
    decreases |order|
  {
    if order == [] then t else QuiesceAll(Registry.Quiesce(t, order[0]), order[1..])
  }

  /** Every one of those calls succeeds. */
  predicate AllSucceed(t: Tables, order: seq<Key>)
    decreases |order|
  {
    order == [] || (CanQuiesce(t, order[0]) && AllSucceed(Registry.Quiesce(t, order[0]), order[1..]))
  }

  function Actives(t: Tables): set<Key> {
    set k | k in t.extensions && t.extensions[k].status.Active?
  }

  /** The order tears everything down. */
  predicate TearsDown(t: Tables, order: seq<Key>) {
    AllSucceed(t, order) && Actives(QuiesceAll(t, order)) == {}
  }

  lemma QuiesceRemovesOne(t: Tables, k: Key)
    requires CanQuiesce(t, k)
    ensures Actives(Registry.Quiesce(t, k)) == Actives(t) - {k}
  {
  }

  // ---- most recently activated first -------------------------------------------------------------------

  ghost predicate Share(a: Extension, b: Extension) {
    exists c, d :: c in a.capabilities && d in b.capabilities && c.id == d.id
  }

  /** No two active extensions provide the same capability id. */
  ghost predicate UniqueProviders(t: Tables) {
    forall a, b :: IsActive(t, a) && IsActive(t, b) && a != b ==> !Share(t.extensions[a], t.extensions[b])
  }

  predicate IsLatest(t: Tables, k: Key) {
    IsActive(t, k) && forall a | a in t.extensions :: IsActive(t, a) ==> t.extensions[a].activation <= t.extensions[k].activation
  }

  lemma {:induction false} LatestExists(t: Tables, among: set<Key>)
    requires among != {} && among <= Actives(t)
    ensures exists k :: k in among && forall a :: a in among ==> t.extensions[a].activation <= t.extensions[k].activation
    decreases |among|
  {
    var x :| x in among;
    if among != {x} {
      LatestExists(t, among - {x});
      var k :| k in among - {x} && forall a :: a in among - {x} ==> t.extensions[a].activation <= t.extensions[k].activation;
      var best := if t.extensions[k].activation < t.extensions[x].activation then x else k;
      assert forall a :: a in among ==> t.extensions[a].activation <= t.extensions[best].activation;
    }
  }

  /** A dependent was activated after what serves it, and with unique providers that is the extension it depends
      on. */
  lemma DependentsAreLater(t: Tables, a: Key, k: Key)
    requires Inv(t) && UniqueProviders(t) && IsActive(t, k) && DependsOn(t, a, k)
    ensures t.extensions[k].activation < t.extensions[a].activation
  {
    var c :| c in t.extensions[k].capabilities && Needs(t.extensions[a], c.id);
    var r :| r in t.extensions[a].needs && r.capability == c.id && !r.optional;
    assert Served(t, a, r);
    var b :| Serves(t, b, a, r);
    var d :| d in t.extensions[b].capabilities && InRange(d, r);
    assert b == k;
  }

  /** The most recently activated extension can always be quiesced. */
  lemma LatestCanQuiesce(t: Tables, k: Key)
    requires Inv(t) && UniqueProviders(t) && IsLatest(t, k)
    ensures CanQuiesce(t, k)
  {
    forall a | DependsOn(t, a, k) ensures false {
      DependentsAreLater(t, a, k);
    }
  }

  /** Every key in the order is the most recently activated one when its turn comes. */
  predicate LatestFirst(t: Tables, order: seq<Key>)
    decreases |order|
  {
    order == [] || (IsLatest(t, order[0]) && LatestFirst(Registry.Quiesce(t, order[0]), order[1..]))
  }

  /** From any reachable state where no two active extensions provide the same capability id: whoever keeps
      quiescing the most recently activated extension succeeds every time, for as long as they like. */
  lemma {:induction false} LatestFirstSucceeds(t: Tables, order: seq<Key>)
    requires Inv(t) && UniqueProviders(t) && LatestFirst(t, order)
    ensures AllSucceed(t, order) && |Actives(QuiesceAll(t, order))| == |Actives(t)| - |order|
    decreases |order|
  {
    if order != [] {
      LatestCanQuiesce(t, order[0]);
      QuiesceIsOk(t, order[0]);
      QuiesceRemovesOne(t, order[0]);
      LatestFirstSucceeds(Registry.Quiesce(t, order[0]), order[1..]);
    }
  }

  lemma SomeoneIsLatest(t: Tables)
    requires Actives(t) != {}
    ensures exists k :: IsLatest(t, k)
  {
    LatestExists(t, Actives(t));
    var k :| k in Actives(t) && forall a :: a in Actives(t) ==> t.extensions[a].activation <= t.extensions[k].activation;
    assert IsLatest(t, k);
  }

  lemma QuiesceKeepsUnique(t: Tables, k: Key)
    requires UniqueProviders(t)
    ensures UniqueProviders(Registry.Quiesce(t, k))
  {
  }

  lemma QuiesceThenTheRest(t: Tables, k: Key, order: seq<Key>)
    requires IsLatest(t, k) && CanQuiesce(t, k)
    requires LatestFirst(Registry.Quiesce(t, k), order) && TearsDown(Registry.Quiesce(t, k), order)
    ensures LatestFirst(t, [k] + order) && TearsDown(t, [k] + order)
  {
    assert ([k] + order)[1..] == order;
  }

  /** ... and can go on until none is active. */
  lemma {:induction false} LatestFirstTearsDown(t: Tables)
    requires Inv(t) && UniqueProviders(t)
    ensures exists order :: LatestFirst(t, order) && TearsDown(t, order)
    decreases |Actives(t)|
  {
    if Actives(t) == {} {
      assert LatestFirst(t, []) && TearsDown(t, []);
    } else {
      SomeoneIsLatest(t);
      var k :| IsLatest(t, k);
      LatestCanQuiesce(t, k);
      QuiesceIsOk(t, k);
      QuiesceRemovesOne(t, k);
      QuiesceKeepsUnique(t, k);
      LatestFirstTearsDown(Registry.Quiesce(t, k));
      var order :| LatestFirst(Registry.Quiesce(t, k), order) && TearsDown(Registry.Quiesce(t, k), order);
      QuiesceThenTheRest(t, k, order);
    }
  }

  // ---- exactly when teardown is possible ---------------------------------------------------------------

  ghost predicate Blocked(t: Tables, core: set<Key>, k: Key) {
    IsActive(t, k) && exists a :: a in core && DependsOn(t, a, k)
  }

  /** A set of active extensions each of which has a dependent in the set. */
  ghost predicate Core(t: Tables, core: set<Key>) {
    core != {} && forall k {:trigger Blocked(t, core, k)} :: k in core ==> Blocked(t, core, k)
  }

  ghost predicate HasCore(t: Tables) {
    exists core :: Core(t, core)
  }

  /** While extensions stay as they are where they were active, they stay blocked. */
  lemma CoreSurvives(t: Tables, after: Tables, core: set<Key>)
    requires Core(t, core)
    requires forall k :: k in core && IsActive(t, k) ==> IsActive(after, k) && after.extensions[k] == t.extensions[k]
    ensures Core(after, core)
  {
    forall k | k in core ensures Blocked(after, core, k) {
      assert Blocked(t, core, k);
      var a :| a in core && DependsOn(t, a, k);
      assert Blocked(t, core, a);
      var c :| c in t.extensions[k].capabilities && Needs(t.extensions[a], c.id);
      assert DependsOn(after, a, k);
    }
  }

  lemma CoreIsActive(t: Tables, core: set<Key>, k: Key)
    requires Core(t, core) && k in core
    ensures IsActive(t, k) && HasDependents(t, k)
  {
    assert Blocked(t, core, k);
  }

  lemma CoreSurvivesQuiesce(t: Tables, core: set<Key>, k: Key)
    requires Core(t, core)
    ensures Core(Registry.Quiesce(t, k), core)
  {
    if k in core {
      CoreIsActive(t, core, k);
    }
    CoreSurvives(t, Registry.Quiesce(t, k), core);
  }

  /** Only Quiesce stops anything from being active. */
  lemma OthersStayActive(t: Tables, ev: Event, k: Key)
    requires IsActive(t, k) && !ev.Quiesce? && !ev.Rollback?
    ensures IsActive(Next(t, ev), k) && Next(t, ev).extensions[k] == t.extensions[k]
  {
    if ev.Discover? {
      DiscoverAdds(t, ev.m, ev.valid, ev.signed);
    }
  }

  lemma CoreSurvivesNext(t: Tables, core: set<Key>, ev: Event)
    requires Core(t, core) && !ev.Quiesce? && !ev.Rollback?
    ensures Core(Next(t, ev), core)
  {
    forall k | k in core && IsActive(t, k) {
      OthersStayActive(t, ev, k);
    }
    CoreSurvives(t, Next(t, ev), core);
  }

  /** No call of any kind ever takes a member out of a core: its extensions stay active for ever. */
  lemma {:induction false} CoreIsForEver(t: Tables, core: set<Key>, events: seq<Event>)
    requires Core(t, core)
    ensures Core(Run(t, events), core)
    decreases |events|
  {
    if events != [] {
      match events[0] {
        case Quiesce(k) => CoreSurvivesQuiesce(t, core, k);
        case Rollback(from, to, teardown, launch) =>
          CoreSurvivesQuiesce(t, core, from);
          var quiesced := Registry.Quiesce(t, from);
          CoreSurvivesNext(quiesced, core, Dispose(from, teardown));
          CoreSurvivesNext(Next(quiesced, Dispose(from, teardown)), core, Activate(to, launch));
        case _ => CoreSurvivesNext(t, core, events[0]);
      }
      CoreIsForEver(Next(t, events[0]), core, events[1..]);
    }
  }

  /** Quiescing someone makes nobody depend on anybody. */
  lemma QuiesceAddsNoCore(t: Tables, k: Key)
    requires CanQuiesce(t, k) && HasCore(Registry.Quiesce(t, k))
    ensures HasCore(t)
  {
    var after := Registry.Quiesce(t, k);
    var core :| Core(after, core);
    CoreSurvives(after, t, core);
  }

  /** Without a core someone active has no dependents. */
  lemma SomeoneIsFree(t: Tables)
    requires !HasCore(t) && Actives(t) != {}
    ensures exists k :: CanQuiesce(t, k)
  {
    if forall k :: !CanQuiesce(t, k) {
      forall k | k in Actives(t) ensures Blocked(t, Actives(t), k) {
        assert !CanQuiesce(t, k);
        var a :| a in t.extensions && DependsOn(t, a, k);
        assert a in Actives(t);
      }
      assert Core(t, Actives(t));
    }
  }

  lemma {:induction false} WithoutACoreTeardownWorks(t: Tables)
    requires !HasCore(t)
    ensures exists order :: TearsDown(t, order)
    decreases |Actives(t)|
  {
    if Actives(t) == {} {
      assert TearsDown(t, []);
    } else {
      SomeoneIsFree(t);
      var k :| CanQuiesce(t, k);
      QuiesceRemovesOne(t, k);
      var after := Registry.Quiesce(t, k);
      if HasCore(after) {
        QuiesceAddsNoCore(t, k);
      }
      WithoutACoreTeardownWorks(after);
      var order :| TearsDown(after, order);
      assert ([k] + order)[1..] == order;
      assert TearsDown(t, [k] + order);
    }
  }

  function AsEvents(order: seq<Key>): seq<Event> {
    seq(|order|, i requires 0 <= i < |order| => Quiesce(order[i]))
  }

  lemma {:induction false} QuiesceAllIsARun(t: Tables, order: seq<Key>)
    ensures Run(t, AsEvents(order)) == QuiesceAll(t, order)
    decreases |order|
  {
    if order != [] {
      assert AsEvents(order)[1..] == AsEvents(order[1..]);
      QuiesceAllIsARun(Registry.Quiesce(t, order[0]), order[1..]);
    }
  }

  /** The exact condition, in every state: some run of calls, of any kind, gets to a point where nothing is active
      if and only if there is no core, and then quiescing alone does it, each call succeeding. */
  lemma TeardownIsPossibleIffNoCore(t: Tables)
    ensures (exists events :: Actives(Run(t, events)) == {}) <==> !HasCore(t)
    ensures (exists order :: TearsDown(t, order)) <==> !HasCore(t)
  {
    if !HasCore(t) {
      WithoutACoreTeardownWorks(t);
      var order :| TearsDown(t, order);
      QuiesceAllIsARun(t, order);
      assert Actives(Run(t, AsEvents(order))) == {};
    } else {
      var core :| Core(t, core);
      var k :| k in core;
      forall events ensures k in Actives(Run(t, events)) {
        CoreIsForEver(t, core, events);
        CoreIsActive(Run(t, events), core, k);
      }
      forall order ensures !TearsDown(t, order) {
        QuiesceAllIsARun(t, order);
      }
    }
  }

  /** In a reachable state, a core needs two active extensions that provide the same capability id. */
  lemma CoresNeedDuplicates(t: Tables)
    requires Inv(t) && HasCore(t)
    ensures !UniqueProviders(t)
  {
    if UniqueProviders(t) {
      var core :| Core(t, core);
      forall k | k in core {
        CoreIsActive(t, core, k);
      }
      LatestExists(t, core);
      var k :| k in core && forall a :: a in core ==> t.extensions[a].activation <= t.extensions[k].activation;
      assert Blocked(t, core, k);
      var a :| a in core && DependsOn(t, a, k);
      DependentsAreLater(t, a, k);
    }
  }

  // ---- a reachable core --------------------------------------------------------------------------------

  /** Three extensions, two capability ids, and a version, range and core range that they all use. */
  datatype Names = Names(z: Key, x: Key, y: Key, p: string, q: string, version: string, range: string, core: string)

  predicate Matching(n: Names) {
    && n.z != n.x && n.z != n.y && n.x != n.y
    && Semver.Satisfies(n.version, n.range) == Success(true) && Semver.Satisfies(CORE_VERSION, n.core) == Success(true)
  }

  function Offers(capability: string, n: Names): seq<Capability> {
    [Capability(capability, n.version, "")]
  }

  function Asks(capability: string, n: Names): seq<Requirement> {
    [Requirement(capability, n.range, false)]
  }

  /** Z provides Q; X requires Q and provides P; Y requires P and provides Q as well. */
  function ManifestZ(n: Names): Manifest {
    Manifest(n.z, Offers(n.q, n), [], n.core, "")
  }

  function ManifestX(n: Names): Manifest {
    Manifest(n.x, Offers(n.p, n), Asks(n.q, n), n.core, "")
  }

  function ManifestY(n: Names): Manifest {
    Manifest(n.y, Offers(n.q, n), Asks(n.p, n), n.core, "")
  }

  /** Discovered and activated one after the other. */
  function Installation(n: Names): seq<Event> {
    [Discover(ManifestZ(n), true, true), Activate(n.z, Works),
     Discover(ManifestX(n), true, true), Activate(n.x, Works),
     Discover(ManifestY(n), true, true), Activate(n.y, Works)]
  }

  function Found(t: Tables, m: Manifest): Tables
    requires |m.capabilities| == 1
  {
    t.(extensions := t.extensions[m.key := Extension(m.capabilities, m.needs, Sha256(m), Discovered, 0)],
       provided := t.provided[(m.key, m.capabilities[0].id) := m.capabilities[0]])
  }

  function Installed(t: Tables, m: Manifest): Tables
    requires |m.capabilities| == 1
  {
    Activated(Found(t, m), m.key)
  }

  predicate CanInstall(t: Tables, m: Manifest) {
    Refusal(m, true, true).None? && m.key !in t.extensions && |m.capabilities| == 1
    && (m.key, m.capabilities[0].id) !in t.provided
  }

  /** Discovering a new extension with one capability. */
  lemma DiscoverFinds(t: Tables, m: Manifest)
    requires CanInstall(t, m)
    ensures Registry.Discover(t, m, true, true).0 == Found(t, m)
  {
    assert m.capabilities[1..] == [];
    assert Inserted(t.provided, m.key, m.capabilities) ==
           Inserted(t.provided[(m.key, m.capabilities[0].id) := m.capabilities[0]], m.key, m.capabilities[1..]);
  }

  /** Discovering it and activating it, when its one requirement, if it has any, was already met. */
  lemma Install(t: Tables, m: Manifest, row: (Key, string))
    requires CanInstall(t, m)
    requires m.needs == [] || (|m.needs| == 1 && Meets(t, row, m.needs[0]))
    ensures Registry.Activate(Registry.Discover(t, m, true, true).0, m.key, Works).0 == Installed(t, m)
  {
    DiscoverFinds(t, m);
    NeedsAreMet(t, m, row);
  }

  lemma NeedsAreMet(t: Tables, m: Manifest, row: (Key, string))
    requires |m.capabilities| == 1 && m.key !in t.extensions && (m.key, m.capabilities[0].id) !in t.provided
    requires m.needs == [] || (|m.needs| == 1 && Meets(t, row, m.needs[0]))
    ensures AllMet(Found(t, m), m.needs)
  {
    if m.needs != [] {
      assert Meets(Found(t, m), row, m.needs[0]);
    }
  }

  /** Two active extensions that need each other are a core. */
  lemma MutualNeedIsACore(t: Tables, x: Key, y: Key, p: Capability, q: Capability)
    requires x != y && IsActive(t, x) && IsActive(t, y)
    requires p in t.extensions[x].capabilities && Needs(t.extensions[y], p.id)
    requires q in t.extensions[y].capabilities && Needs(t.extensions[x], q.id)
    ensures Core(t, {x, y})
  {
    assert DependsOn(t, y, x) && DependsOn(t, x, y);
    assert Blocked(t, {x, y}, x) && Blocked(t, {x, y}, y);
  }

  lemma RunOfSix(t: Tables, e: seq<Event>)
    requires |e| == 6
    ensures Run(t, e) == Next(Next(Next(Next(Next(Next(t, e[0]), e[1]), e[2]), e[3]), e[4]), e[5])
  {
    assert e[1..][1..] == e[2..] && e[2..][1..] == e[3..] && e[3..][1..] == e[4..] && e[4..][1..] == e[5..];
    assert e[5..][1..] == [];
    var t1 := Next(t, e[0]);
    var t2 := Next(t1, e[1]);
    var t3 := Next(t2, e[2]);
    var t4 := Next(t3, e[3]);
    var t5 := Next(t4, e[4]);
    assert Run(t, e) == Run(t1, e[1..]) == Run(t2, e[2..]) == Run(t3, e[3..]) == Run(t4, e[4..]);
    assert Run(t4, e[4..]) == Run(t5, e[5..]) == Run(Next(t5, e[5]), []);
  }

  function AllInstalled(n: Names): Tables {
    Installed(Installed(Installed(EMPTY, ManifestZ(n)), ManifestX(n)), ManifestY(n))
  }

  function Try(t: Tables, m: Manifest): Tables {
    Registry.Discover(t, m, true, true).0
  }

  lemma XInstalls(n: Names)
    requires Matching(n)
    ensures var t := Installed(EMPTY, ManifestZ(n));
      Registry.Activate(Try(t, ManifestX(n)), n.x, Works).0 == Installed(t, ManifestX(n))
  {
    Install(Installed(EMPTY, ManifestZ(n)), ManifestX(n), (n.z, n.q));
  }

  lemma XServesY(n: Names)
    requires Matching(n)
    ensures var t := Installed(Installed(EMPTY, ManifestZ(n)), ManifestX(n));
      CanInstall(t, ManifestY(n)) && Meets(t, (n.x, n.p), ManifestY(n).needs[0])
  {
  }

  lemma YInstalls(n: Names)
    requires Matching(n)
    ensures var t := Installed(Installed(EMPTY, ManifestZ(n)), ManifestX(n));
      Registry.Activate(Try(t, ManifestY(n)), n.y, Works).0 == Installed(t, ManifestY(n))
  {
    XServesY(n);
    Install(Installed(Installed(EMPTY, ManifestZ(n)), ManifestX(n)), ManifestY(n), (n.x, n.p));
  }

  lemma InstallationInstalls(n: Names)
    requires Matching(n)
    ensures Run(EMPTY, Installation(n)) == AllInstalled(n)
  {
    RunOfSix(EMPTY, Installation(n));
    Install(EMPTY, ManifestZ(n), (n.z, n.q));
    XInstalls(n);
    YInstalls(n);
  }

  /** Whatever names, versions and ranges the three use, as long as they match: after installing them X and Y block
      each other, so no later call of any kind makes either of them stop being active. */
  lemma ThreeExtensionsBlock(n: Names)
    requires Matching(n)
    ensures Core(Run(EMPTY, Installation(n)), {n.x, n.y})
  {
    InstallationInstalls(n);
    assert Asks(n.q, n)[0] in Asks(n.q, n) && Asks(n.p, n)[0] in Asks(n.p, n);
    MutualNeedIsACore(AllInstalled(n), n.x, n.y, Offers(n.p, n)[0], Offers(n.q, n)[0]);
  }

  /** Nothing that happens after this run ever leaves no extension active. */
  ghost predicate StuckAfter(before: seq<Event>) {
    forall events :: Actives(Run(Run(EMPTY, before), events)) != {}
  }

  /** Versions and ranges that match exist. */
  lemma SomeNamesMatch() returns (n: Names)
    ensures Matching(n)
  {
    var one, core := Semver.Triple(1, 0, 0), Semver.Triple(0, 1, 0);
    SemverTheorems.CaretAcceptsItself(one);
    SemverTheorems.CaretAcceptsItself(core);
    assert SemverTheorems.Format(core) == CORE_VERSION;
    var version := SemverTheorems.Format(one);
    n := Names(C.Key("z", "1"), C.Key("x", "1"), C.Key("y", "1"), "p", "q", version, "^" + version, "^" + CORE_VERSION);
    assert "z"[0] != "x"[0] && "z"[0] != "y"[0] && "x"[0] != "y"[0];
  }

  /** So the blocked state is reachable, and nothing gets out of it. */
  lemma ABlockedStateIsReachable()
    ensures exists before :: StuckAfter(before)
  {
    var n := SomeNamesMatch();
    ThreeExtensionsBlock(n);
    TeardownIsPossibleIffNoCore(Run(EMPTY, Installation(n)));
    assert StuckAfter(Installation(n));
  }

  // ---- a reachable race --------------------------------------------------------------------------------

  /** Z and X discovered, Z active: X's requirement is met. */
  function Prepared(n: Names): seq<Event> {
    [Discover(ManifestZ(n), true, true), Activate(n.z, Works), Discover(ManifestX(n), true, true)]
  }

  lemma PreparationPrepares(n: Names)
    requires Matching(n)
    ensures Run(EMPTY, Prepared(n)) == Found(Installed(EMPTY, ManifestZ(n)), ManifestX(n))
  {
    var e := Prepared(n);
    assert e[1..][1..] == e[2..] && e[2..][1..] == [];
    Install(EMPTY, ManifestZ(n), (n.z, n.q));
    DiscoverFinds(Installed(EMPTY, ManifestZ(n)), ManifestX(n));
    var t1 := Next(EMPTY, e[0]);
    var t2 := Next(t1, e[1]);
    assert Run(EMPTY, e) == Run(t1, e[1..]) == Run(t2, e[2..]) == Run(Next(t2, e[2]), []);
  }

  /** `a` passes Activate's checks, and quiescing `b` before `a` is marked active leaves `a` active with a requirement
      that nothing active serves. */
  ghost predicate Races(t: Tables, a: Key, b: Key) {
    && RegistryTheorems.PassesChecks(t, a)
    && var u := Run(SetStatus(t, a, Activating), [Quiesce(b)]);
       a in u.extensions && !Closed(Activated(u, a))
  }

  /** X marked active after Z has been quiesced. */
  lemma XIsUnserved(n: Names)
    requires Matching(n)
    ensures var began := SetStatus(Found(Installed(EMPTY, ManifestZ(n)), ManifestX(n)), n.x, Activating);
      && CanQuiesce(began, n.z)
      && !AllMet(Registry.Quiesce(began, n.z), Asks(n.q, n))
  {
    var began := SetStatus(Found(Installed(EMPTY, ManifestZ(n)), ManifestX(n)), n.x, Activating);
    QuiescedBeforeTheWrite(began, n);
    assert Asks(n.q, n)[0] in Asks(n.q, n);
  }

  lemma RunOfOne(t: Tables, ev: Event)
    ensures Run(t, [ev]) == Next(t, ev)
  {
    assert [ev][1..] == [] && Run(t, [ev]) == Run(Next(t, ev), []);
  }

  lemma XPassesChecks(n: Names)
    requires Matching(n)
    ensures RegistryTheorems.PassesChecks(Run(EMPTY, Prepared(n)), n.x)
    ensures Run(EMPTY, Prepared(n)).extensions[n.x].needs == Asks(n.q, n)
  {
    PreparationPrepares(n);
    NeedsAreMet(Installed(EMPTY, ManifestZ(n)), ManifestX(n), (n.z, n.q));
  }

  lemma ZAndXRace(n: Names)
    requires Matching(n)
    ensures Races(Run(EMPTY, Prepared(n)), n.x, n.z)
  {
    var t := Run(EMPTY, Prepared(n));
    XPassesChecks(n);
    RegistryTheorems.InvHolds(Prepared(n));
    RegistryTheorems.CallsBetweenCheckAndWrite(t, n.x, [Quiesce(n.z)]);
    PreparationPrepares(n);
    XIsUnserved(n);
    RunOfOne(SetStatus(t, n.x, Activating), Quiesce(n.z));
  }

  /** So the race is reachable. */
  lemma TheRaceIsReachable()
    ensures exists before, a, b :: Races(Run(EMPTY, before), a, b)
  {
    var n := SomeNamesMatch();
    ZAndXRace(n);
  }

  lemma OnlyZIsActive(began: Tables, n: Names)
    requires Matching(n)
    requires began == SetStatus(Found(Installed(EMPTY, ManifestZ(n)), ManifestX(n)), n.x, Activating)
    ensures forall k :: IsActive(began, k) <==> k == n.z
  {
  }

  /** Whoever is the only active one can be quiesced, and then nothing is satisfied. */
  lemma TheOnlyOneCanQuiesce(t: Tables, k: Key, r: Requirement)
    requires forall a :: IsActive(t, a) <==> a == k
    ensures CanQuiesce(t, k) && !Satisfied(Registry.Quiesce(t, k), r)
  {
    forall a | a in t.extensions ensures !DependsOn(t, a, k) {
    }
    assert IsActive(t, k) && !HasDependents(t, k);
    forall a ensures !IsActive(Registry.Quiesce(t, k), a) {
      assert IsActive(t, a) <==> a == k;
    }
  }

  lemma QuiescedBeforeTheWrite(began: Tables, n: Names)
    requires Matching(n)
    requires began == SetStatus(Found(Installed(EMPTY, ManifestZ(n)), ManifestX(n)), n.x, Activating)
    ensures CanQuiesce(began, n.z) && !Satisfied(Registry.Quiesce(began, n.z), Asks(n.q, n)[0])
  {
    OnlyZIsActive(began, n);
    TheOnlyOneCanQuiesce(began, n.z, Asks(n.q, n)[0]);
  }
}
