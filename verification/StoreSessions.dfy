/** Paged listing over the store as it is used: between two pages of a session any goals are created and any statuses
    written. */
module StoreSessions {
  import opened Wrappers
  import opened TaskStore
  import opened Pagination
  import opened Coverage

  function ApplyAll(t: seq<Goal>, changes: seq<Change>): seq<Goal>
    decreases |changes|
  {
    if changes == [] then t else ApplyAll(Apply(t, changes[0]), changes[1..])
  }

  /** The table as it is first, then after each batch of changes. */
  function TableAt(t: seq<Goal>, batches: seq<seq<Change>>, i: nat): seq<Goal>
    requires i <= |batches|
  {
    if i == 0 then t else ApplyAll(TableAt(t, batches, i - 1), batches[i - 1])
  }

  /** The table at each page. */
  function TablesOf(t: seq<Goal>, batches: seq<seq<Change>>): (tables: seq<seq<Goal>>)
    ensures |tables| == |batches| + 1 && forall i :: 0 <= i <= |batches| ==> tables[i] == TableAt(t, batches, i)
  {
    seq(|batches| + 1, i requires 0 <= i <= |batches| => TableAt(t, batches, i))
  }

  /** The store's own invariant. */
  predicate Ordered(t: seq<Goal>) {
    NonDescending(t) && DistinctIds(t)
  }

  /** What is asked of the creation times that become visible: nothing; that no two coincide; or that each is after
      all earlier ones. */
  datatype Clock = Any | Distinct | Forward

  /** Ids are drawn fresh, and the creation time is as the clock has it. */
  predicate Sensible(t: seq<Goal>, c: Change, clock: Clock) {
    c.Create? ==> IsNew(t, c.id) && forall i :: 0 <= i < |t| ==> Ticks(t[i].createdAt, c.now, clock)
  }

  predicate Ticks(before: Time, now: Time, clock: Clock) {
    match clock
    case Any => true
    case Distinct => before != now
    case Forward => before < now
  }

  predicate AllSensible(t: seq<Goal>, changes: seq<Change>, clock: Clock)
    decreases |changes|
  {
    changes == [] || (Sensible(t, changes[0], clock) && AllSensible(Apply(t, changes[0]), changes[1..], clock))
  }

  predicate SensibleBatch(t: seq<Goal>, batches: seq<seq<Change>>, clock: Clock, i: nat)
    requires i < |batches|
  {
    AllSensible(TableAt(t, batches, i), batches[i], clock)
  }

  predicate SensibleBatches(t: seq<Goal>, batches: seq<seq<Change>>, clock: Clock) {
    forall i: nat :: i < |batches| ==> SensibleBatch(t, batches, clock, i)
  }

  predicate OnlyCreates(changes: seq<Change>) {
    forall i :: 0 <= i < |changes| ==> changes[i].Create?
  }

  predicate AllCreate(batches: seq<seq<Change>>) {
    forall b :: 0 <= b < |batches| ==> OnlyCreates(batches[b])
  }

  // ---- one change --------------------------------------------------------------------------------------

  /** Every goal is still there, with its creation time. */
  ghost predicate KeepsGoals(a: seq<Goal>, b: seq<Goal>) {
    forall id, time :: Present(a, id, time) ==> Present(b, id, time)
  }

  /** ... and there is no goal that was not there. */
  lemma ApplyKeepsGoals(t: seq<Goal>, c: Change)
    ensures KeepsGoals(t, Apply(t, c))
  {
    var u := Apply(t, c);
    forall id, time | Present(t, id, time) ensures Present(u, id, time) {
      var k :| 0 <= k < |t| && t[k].id == id && t[k].createdAt == time;
      if c.Create? && k >= Position(t, c.now) {
        assert u[k + 1] == t[k];
      } else {
        assert u[k].id == id && u[k].createdAt == time;
      }
    }
  }

  /** While the clock moves on a new goal is the last one. */
  lemma CreateAppends(t: seq<Goal>, c: Change)
    requires Ordered(t) && c.Create? && Sensible(t, c, Forward)
    ensures Apply(t, c) == t + [Goal(c.id, c.text, "open", "", c.now)]
  {
    var n := Position(t, c.now);
    assert n < |t| ==> t[n].createdAt <= c.now;
    PositionSplits(t, c.now);
    assert n == |t|;
  }

  lemma InsertKeepsAscending(t: seq<Goal>, n: nat, g: Goal)
    requires Ascending(t) && n <= |t|
    requires forall i :: 0 <= i < n ==> t[i].createdAt < g.createdAt
    requires forall i :: n <= i < |t| ==> t[i].createdAt > g.createdAt
    ensures Ascending(t[..n] + [g] + t[n..])
  {
    var u := t[..n] + [g] + t[n..];
    assert forall i :: 0 <= i < |u| ==> u[i] == if i < n then t[i] else if i == n then g else t[i - 1];
  }

  lemma CreateKeepsAscending(t: seq<Goal>, c: Change)
    requires Ordered(t) && c.Create? && Sensible(t, c, Distinct) && Ascending(t)
    ensures Ascending(Apply(t, c))
  {
    var n := Position(t, c.now);
    PositionSplits(t, c.now);
    assert forall i :: 0 <= i < |t| ==> t[i].createdAt != c.now;
    InsertKeepsAscending(t, n, Goal(c.id, c.text, "open", "", c.now));
  }

  lemma ChangeKeeps(t: seq<Goal>, c: Change, clock: Clock)
    requires Ordered(t) && Sensible(t, c, clock)
    ensures var u := Apply(t, c);
      && Ordered(u) && KeepsGoals(t, u)
      && (!clock.Any? && Ascending(t) ==> Ascending(u))
      && (clock.Forward? && c.Create? ==> t <= u)
  {
    ApplyKeepsOrder(t, c);
    ApplyKeepsGoals(t, c);
    if c.Create? {
      if clock.Forward? {
        CreateAppends(t, c);
      }
      if !clock.Any? && Ascending(t) {
        CreateKeepsAscending(t, c);
      }
    }
  }

  lemma {:induction false} ChangesKeep(t: seq<Goal>, changes: seq<Change>, clock: Clock)
    requires Ordered(t) && AllSensible(t, changes, clock)
    ensures var u := ApplyAll(t, changes);
      && Ordered(u) && KeepsGoals(t, u)
      && (!clock.Any? && Ascending(t) ==> Ascending(u))
      && (clock.Forward? && OnlyCreates(changes) ==> t <= u)
    decreases |changes|
  {
    if changes != [] {
      ChangeKeeps(t, changes[0], clock);
      ChangesKeep(Apply(t, changes[0]), changes[1..], clock);
      assert OnlyCreates(changes) ==> changes[0].Create? && OnlyCreates(changes[1..]);
    }
  }

  // ---- the tables of a session -------------------------------------------------------------------------

  /** Each table of the session is in order. */
  lemma {:induction false} EachTable(t: seq<Goal>, batches: seq<seq<Change>>, clock: Clock, i: nat)
    requires Ordered(t) && SensibleBatches(t, batches, clock) && i <= |batches|
    ensures var u := TableAt(t, batches, i);
      Ordered(u) && (!clock.Any? && Ascending(t) ==> Ascending(u))
  {
    if i > 0 {
      EachTable(t, batches, clock, i - 1);
      assert SensibleBatch(t, batches, clock, i - 1);
      ChangesKeep(TableAt(t, batches, i - 1), batches[i - 1], clock);
    }
  }

  /** From one page to the next. */
  lemma EachStep(t: seq<Goal>, batches: seq<seq<Change>>, clock: Clock, i: nat)
    requires Ordered(t) && SensibleBatches(t, batches, clock) && i < |batches|
    ensures var (a, b) := (TableAt(t, batches, i), TableAt(t, batches, i + 1));
      KeepsGoals(a, b) && (clock.Forward? && AllCreate(batches) ==> a <= b)
  {
    EachTable(t, batches, clock, i);
    assert SensibleBatch(t, batches, clock, i);
    ChangesKeep(TableAt(t, batches, i), batches[i], clock);
  }

  lemma KeepsOnward(a: seq<Goal>, b: seq<Goal>, c: seq<Goal>)
    requires KeepsGoals(a, b) && KeepsGoals(b, c)
    ensures KeepsGoals(a, c)
    ensures a <= b <= c ==> a <= c
  {
  }

  /** ... and any later table has the goals an earlier one has. */
  lemma {:induction false} EachPair(t: seq<Goal>, batches: seq<seq<Change>>, clock: Clock, i: nat, j: nat)
    requires Ordered(t) && SensibleBatches(t, batches, clock) && i <= j <= |batches|
    ensures var (a, b) := (TableAt(t, batches, i), TableAt(t, batches, j));
      KeepsGoals(a, b) && (clock.Forward? && AllCreate(batches) ==> a <= b)
    decreases j
  {
    if i < j {
      EachPair(t, batches, clock, i, j - 1);
      EachStep(t, batches, clock, j - 1);
      KeepsOnward(TableAt(t, batches, i), TableAt(t, batches, j - 1), TableAt(t, batches, j));
    }
  }

  ghost predicate KeepingGoals(tables: seq<seq<Goal>>) {
    forall i, j :: 0 <= i <= j < |tables| ==> KeepsGoals(tables[i], tables[j])
  }

  /** Whatever is done to the store between pages, goals created at any times included: each goal stays there under its
      id and creation time, and ids and times never disagree. With distinct creation times every table has them; and
      if goals are only created, at times that move on, each table continues the one before. */
  lemma StoreRunsKeepGoals(t: seq<Goal>, batches: seq<seq<Change>>, clock: Clock)
    requires Ordered(t) && SensibleBatches(t, batches, clock)
    ensures var tables := TablesOf(t, batches);
      && KeepingGoals(tables) && IdsNameGoals(tables)
      && (!clock.Any? && Ascending(t) ==> AllAscending(tables))
      && (clock.Forward? && AllCreate(batches) ==> Growing(tables))
  {
    var tables := TablesOf(t, batches);
    forall i | 0 <= i < |tables|
      ensures Ordered(tables[i]) && (!clock.Any? && Ascending(t) ==> Ascending(tables[i]))
    {
      EachTable(t, batches, clock, i);
    }
    forall i, j | 0 <= i <= j < |tables|
      ensures KeepsGoals(tables[i], tables[j]) && TimesAgree(tables[i], tables[j]) && TimesAgree(tables[j], tables[i])
    {
      EachPair(t, batches, clock, i, j);
      KeepingMeansAgreeing(tables[i], tables[j]);
    }
    if clock.Forward? && AllCreate(batches) {
      forall i, j | 0 <= i < j < |tables| ensures tables[i] <= tables[j] {
        EachPair(t, batches, clock, i, j);
      }
    }
  }

  lemma KeepingMeansAgreeing(a: seq<Goal>, b: seq<Goal>)
    requires KeepsGoals(a, b) && DistinctIds(b)
    ensures TimesAgree(a, b) && TimesAgree(b, a)
  {
    forall i, j | 0 <= i < |a| && 0 <= j < |b| && a[i].id == b[j].id ensures a[i].createdAt == b[j].createdAt {
      assert Present(a, a[i].id, a[i].createdAt);
      assert Present(b, a[i].id, a[i].createdAt);
      var k :| 0 <= k < |b| && b[k].id == a[i].id && b[k].createdAt == a[i].createdAt;
      assert k == j;
    }
  }

  // ---- what a client of the store gets -----------------------------------------------------------------

  /** A session over the store from its first page on. */
  function Session(t: seq<Goal>, batches: seq<seq<Change>>, sizes: seq<int>, status: Option<TaskState>): seq<Page>
    requires |sizes| == |batches| + 1
  {
    Pages(TablesOf(t, batches), sizes, status, None)
  }

  /** Goals created and statuses written between pages, whatever the clock does: no task is listed twice. */
  lemma StoreSessionsNeverRepeat(t: seq<Goal>, batches: seq<seq<Change>>, sizes: seq<int>, status: Option<TaskState>)
    requires Ordered(t) && SensibleBatches(t, batches, Any) && |sizes| == |batches| + 1
    ensures DistinctTasks(Joined(Session(t, batches, sizes, status)))
  {
    StoreRunsKeepGoals(t, batches, Any);
    NeverListedTwice(TablesOf(t, batches), sizes, status, None);
  }

  /** Goals only created between pages, with a clock that moves on: once finished, the session has listed exactly the
      matching goals of the table as it was at the last page, in order, each once. */
  lemma StoreSessionsAreExact(t: seq<Goal>, batches: seq<seq<Change>>, sizes: seq<int>, status: Option<TaskState>)
    requires Ordered(t) && Ascending(t) && SensibleBatches(t, batches, Forward) && |sizes| == |batches| + 1
    requires AllCreate(batches) && Finished(Session(t, batches, sizes, status))
    ensures var (tables, pages) := (TablesOf(t, batches), Session(t, batches, sizes, status));
      Joined(pages) == TasksFrom(Select(tables[|pages| - 1], None, status))
  {
    StoreRunsKeepGoals(t, batches, Forward);
    SessionIsExact(TablesOf(t, batches), sizes, status, None);
  }

  /** And asking for more pages than there are matching goals finishes it. */
  lemma StoreSessionsFinish(t: seq<Goal>, batches: seq<seq<Change>>, sizes: seq<int>, status: Option<TaskState>)
    requires Ordered(t) && Ascending(t) && SensibleBatches(t, batches, Forward) && |sizes| == |batches| + 1
    requires AllCreate(batches) && |Select(TableAt(t, batches, |batches|), None, status)| <= |batches|
    ensures Finished(Session(t, batches, sizes, status))
  {
    StoreRunsKeepGoals(t, batches, Forward);
    SessionFinishes(TablesOf(t, batches), sizes, status, None);
  }

  // ---- what a client of the store misses ---------------------------------------------------------------

  lemma PresentIsVisible(t: seq<Goal>, id: string, time: Time)
    ensures Visible(t, id, time, None) <==> Present(t, id, time)
  {
    if Present(t, id, time) {
      var k :| 0 <= k < |t| && t[k].id == id && t[k].createdAt == time;
      assert HasStatus(t[k], None);
    }
  }

  /** Goals created between pages at any distinct times, and statuses written: a finished session misses exactly the
      goals that were not there yet, or did not pass the filter, when the page that covers their time was read. */
  lemma StoreSessionsMissTheLate(t: seq<Goal>, batches: seq<seq<Change>>, sizes: seq<int>, status: Option<TaskState>,
                                 id: string, time: Time)
    requires Ordered(t) && Ascending(t) && SensibleBatches(t, batches, Distinct) && |sizes| == |batches| + 1
    requires Finished(Session(t, batches, sizes, status))
    ensures var pages := Session(t, batches, sizes, status);
      && PageOf(pages, time) < |pages|
      && var read := TablesOf(t, batches)[PageOf(pages, time)];
         && (Lists(pages, id, time) <==> Visible(read, id, time, status))
         && (status.None? ==> (Lists(pages, id, time) <==> Present(read, id, time)))
  {
    var tables := TablesOf(t, batches);
    StoreRunsKeepGoals(t, batches, Distinct);
    ListedIffVisibleAtItsPage(tables, sizes, status, None, id, time);
    PresentIsVisible(tables[PageOf(Session(t, batches, sizes, status), time)], id, time);
  }

  /** In particular a goal that is created between two pages is listed if and only if its creation time is beyond the
      token handed out with the first of them. */
  lemma CreatedBetweenPages(t: seq<Goal>, batches: seq<seq<Change>>, sizes: seq<int>, m: nat, id: string, time: Time)
    requires Ordered(t) && Ascending(t) && SensibleBatches(t, batches, Distinct) && |sizes| == |batches| + 1
    requires Finished(Session(t, batches, sizes, None)) && m < |Session(t, batches, sizes, None)| - 1
    requires !Present(TablesOf(t, batches)[m], id, time) && Present(TablesOf(t, batches)[m + 1], id, time)
    ensures var pages := Session(t, batches, sizes, None);
      Lists(pages, id, time) <==> Beyond(time, pages[m].nextPageToken)
  {
    var tables := TablesOf(t, batches);
    StoreRunsKeepGoals(t, batches, Distinct);
    forall n | 0 <= n < |tables| ensures Visible(tables[n], id, time, None) <==> n > m {
      PresentIsVisible(tables[n], id, time);
      if n <= m {
        assert KeepsGoals(tables[n], tables[m]);
      } else {
        assert KeepsGoals(tables[m + 1], tables[n]);
      }
    }
    ListedIffAheadOfTheToken(tables, sizes, None, None, m, id, time);
  }

  /** Pages of one goal, and a goal that becomes visible a millisecond behind the first token. */
  function LateRun(id: string, first: string, second: string, now: Time): (seq<Goal>, seq<seq<Change>>) {
    ([Goal(first, "", "open", "", now + 1), Goal(second, "", "open", "", now + 2)], [[Create(id, "", now)]])
  }

  /** So the token is no stable cursor over insertions: there is a run of the store in which a session that finishes
      never lists a goal that was created after it began, though every goal has a creation time of its own. */
  lemma ALateGoalIsMissed(id: string, first: string, second: string, now: Time)
    requires id != first && id != second && first != second
    ensures var (t, batches) := LateRun(id, first, second, now);
      && Ordered(t) && Ascending(t) && SensibleBatches(t, batches, Distinct)
      && Finished(Session(t, batches, [1, 1], None))
      && Present(TablesOf(t, batches)[1], id, now) && !Lists(Session(t, batches, [1, 1], None), id, now)
  {
    var (t, batches) := LateRun(id, first, second, now);
    var g := Goal(id, "", "open", "", now);
    LateTables(id, first, second, now);
    var tables := TablesOf(t, batches);
    assert SensibleBatch(t, batches, Distinct, 0);
    assert SensibleBatches(t, batches, Distinct);
    LatePages(tables, t, g);
    assert tables[1][0] == g;
    CreatedBetweenPages(t, batches, [1, 1], 0, id, now);
  }

  lemma LateTables(id: string, first: string, second: string, now: Time)
    ensures var (t, batches) := LateRun(id, first, second, now);
      TablesOf(t, batches) == [t, [Goal(id, "", "open", "", now)] + t]
  {
    var (t, batches) := LateRun(id, first, second, now);
    var u := Apply(t, Create(id, "", now));
    assert Position(t, now) == 0;
    assert u == [Goal(id, "", "open", "", now)] + t;
    assert batches[0][1..] == [];
    assert ApplyAll(u, []) == u;
    assert ApplyAll(t, batches[0]) == u;
    assert TableAt(t, batches, 0) == t && TableAt(t, batches, 1) == ApplyAll(t, batches[0]);
  }

  lemma LatePages(tables: seq<seq<Goal>>, t: seq<Goal>, g: Goal)
    requires |t| == 2 && g.createdAt < t[0].createdAt < t[1].createdAt && tables == [t, [g] + t]
    ensures var pages := Pages(tables, [1, 1], None, None);
      |pages| == 2 && Finished(pages) && pages[0].nextPageToken == Some(t[0].createdAt)
  {
    FirstPage(tables, [1, 1], None, None);
    AllSelected(t);
    FirstPage(tables[1..], [1], None, Some(t[0].createdAt));
    var x := t[0].createdAt;
    assert [g] + t == [g, t[0]] + [t[1]];
    SelectOfConcat([g, t[0]], [t[1]], Some(x), None);
    NoneLater([g, t[0]], x);
    AllLater([t[1]], x);
    assert [1, 1][1..] == [1];
  }

  lemma {:induction false} AllSelected(t: seq<Goal>)
    ensures Select(t, None, None) == t
  {
    if t != [] {
      AllSelected(t[1..]);
    }
  }
}
