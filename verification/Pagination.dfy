/** What a client gets that follows the page tokens of ListTasks, while the goal table changes between pages. */
module Pagination {
  import opened Wrappers
  import opened TaskStore

  // ---- state translation -------------------------------------------------------------------------------

  /** The task states that have a goal status of their own. */
  predicate IsMapped(s: TaskState) {
    s.Submitted? || s.Working? || s.Completed? || s.Failed? || s.Canceled?
  }

  /** Translating a task state to a goal status and back gives the same state exactly for the five mapped ones;
      translating a goal status and back always does. */
  lemma StatesRoundTrip(s: TaskState, status: string)
    ensures GoalStateToTaskState(TaskStateToGoalState(s)) == s <==> IsMapped(s)
    ensures IsGoalStatus(status) ==> TaskStateToGoalState(GoalStateToTaskState(status)) == status
    ensures IsGoalStatus(status) <==> status in ["open", "active", "done", "failed", "canceled"]
    ensures IsTerminal(status) <==> status in ["done", "failed", "canceled"]
  {
  }

  /** Every task of every listing filtered by `s` is in state `s`. */
  ghost predicate FilterIsHonest(s: TaskState) {
    forall t, token, i :: 0 <= i < |Select(t, token, Some(s))| ==>
      GoalStateToTaskState(Select(t, token, Some(s))[i].status) == s
  }

  lemma {:induction false} SelectedHaveStatus(t: seq<Goal>, token: Option<Time>, status: Option<TaskState>)
    ensures forall g :: g in Select(t, token, status) <==> g in t && IsAfter(g, token) && HasStatus(g, status)
  {
    if t != [] {
      SelectedHaveStatus(t[1..], token, status);
      assert t == [t[0]] + t[1..];
    }
  }

  /** The status filter keeps what it says exactly for the five mapped states; any other one lists the open goals
      instead, reported as submitted. */
  lemma FilterIsHonestIffMapped(s: TaskState)
    ensures FilterIsHonest(s) <==> IsMapped(s)
  {
    StatesRoundTrip(s, "open");
    if IsMapped(s) {
      forall t, token, i | 0 <= i < |Select(t, token, Some(s))|
        ensures GoalStateToTaskState(Select(t, token, Some(s))[i].status) == s
      {
        SelectedHaveStatus(t, token, Some(s));
        assert Select(t, token, Some(s))[i] in Select(t, token, Some(s));
      }
    } else {
      var g := Goal("", "", "open", "", 0);
      SelectedHaveStatus([g], None, Some(s));
      assert g in [g] && g in Select([g], None, Some(s));
      assert Select([g], None, Some(s))[0] == g;
    }
  }

  // ---- one session -------------------------------------------------------------------------------------

  /** Page after page: the table as it is when each page is asked for, and the page sizes asked for. It ends with
      the first page that has no token. */
  function Pages(tables: seq<seq<Goal>>, sizes: seq<int>, status: Option<TaskState>, token: Option<Time>)
    : (pages: seq<Page>)
    requires |sizes| == |tables|
    ensures |pages| <= |tables| && (tables != [] ==> pages != [])
    decreases |tables|
  {
    if tables == [] then []
    else
      var page := Listing(tables[0], Filter("", status, sizes[0], token));
      [page] + if page.nextPageToken.None? then [] else Pages(tables[1..], sizes[1..], status, page.nextPageToken)
  }

  function Joined(pages: seq<Page>): seq<Task> {
    if pages == [] then [] else pages[0].tasks + Joined(pages[1..])
  }

  /** The client has seen the last page. */
  predicate Finished(pages: seq<Page>) {
    pages != [] && pages[|pages| - 1].nextPageToken.None?
  }

  /** created_at values are distinct. */
  predicate Ascending(t: seq<Goal>) {
    forall i, j :: 0 <= i < j < |t| ==> t[i].createdAt < t[j].createdAt
  }

  /** The first page, and the pages after it. */
  lemma FirstPage(tables: seq<seq<Goal>>, sizes: seq<int>, status: Option<TaskState>, token: Option<Time>)
    requires |sizes| == |tables| && tables != []
    ensures var pages := Pages(tables, sizes, status, token);
      var (tasks, next) := Cut(Select(tables[0], token, status), EffectiveSize(sizes[0]));
      && pages != [] && pages[0].tasks == tasks && pages[0].nextPageToken == next
      && Joined(pages) == tasks + Joined(pages[1..])
      && pages[1..] == (if next.None? then [] else Pages(tables[1..], sizes[1..], status, next))
      && (next.Some? && tables[1..] != [] ==> Finished(pages) == Finished(pages[1..]))
      && (next.Some? && tables[1..] == [] ==> !Finished(pages))
      && (next.None? ==> Finished(pages) && Joined(pages) == tasks)
  {
    var pages := Pages(tables, sizes, status, token);
    var next := Cut(Select(tables[0], token, status), EffectiveSize(sizes[0])).1;
    if next.Some? {
      var rest := Pages(tables[1..], sizes[1..], status, next);
      assert pages == [pages[0]] + rest;
      assert rest != [] ==> pages[|pages| - 1] == rest[|rest| - 1];
    } else {
      assert pages[1..] == [] && pages[0].tasks + [] == pages[0].tasks;
    }
  }

  // ---- selecting ---------------------------------------------------------------------------------------

  lemma {:induction false} SelectOfConcat(a: seq<Goal>, b: seq<Goal>, token: Option<Time>, status: Option<TaskState>)
    ensures Select(a + b, token, status) == Select(a, token, status) + Select(b, token, status)
  {
    if a == [] {
      assert a + b == b;
    } else {
      assert (a + b)[1..] == a[1..] + b;
      SelectOfConcat(a[1..], b, token, status);
    }
  }

  /** Selecting is filtering, so a later token selects among what an earlier one selected. */
  lemma {:induction false} LaterToken(t: seq<Goal>, token: Option<Time>, later: Time, status: Option<TaskState>)
    requires token.None? || token.value <= later
    ensures Select(t, Some(later), status) == Select(Select(t, token, status), Some(later), None)
  {
    if t != [] {
      LaterToken(t[1..], token, later, status);
      var rest := Select(t[1..], token, status);
      if IsAfter(t[0], token) && HasStatus(t[0], status) {
        SelectOfConcat([t[0]], rest, Some(later), None);
        assert Select([t[0]], Some(later), None) == if IsAfter(t[0], Some(later)) then [t[0]] else [];
      } else {
        assert [] + rest == rest;
        assert !IsAfter(t[0], Some(later)) || !HasStatus(t[0], status);
      }
    }
  }

  /** What is selected from rows at or after a time is at or after it. */
  lemma SelectedAreIn(t: seq<Goal>, token: Option<Time>, status: Option<TaskState>, i: nat)
    requires i < |Select(t, token, status)|
    ensures exists j :: 0 <= j < |t| && t[j] == Select(t, token, status)[i]
    ensures IsAfter(Select(t, token, status)[i], token)
  {
    SelectedHaveStatus(t, token, status);
    assert Select(t, token, status)[i] in Select(t, token, status);
  }

  lemma {:induction false} SelectKeepsNonDescending(t: seq<Goal>, token: Option<Time>, status: Option<TaskState>)
    requires NonDescending(t)
    ensures NonDescending(Select(t, token, status))
  {
    if t != [] {
      SelectKeepsNonDescending(t[1..], token, status);
      var rest := Select(t[1..], token, status);
      forall i | 0 <= i < |rest| ensures t[0].createdAt <= rest[i].createdAt {
        SelectedAreIn(t[1..], token, status, i);
      }
    }
  }

  lemma {:induction false} SelectKeepsAscending(t: seq<Goal>, token: Option<Time>, status: Option<TaskState>)
    requires Ascending(t)
    ensures Ascending(Select(t, token, status))
  {
    if t != [] {
      SelectKeepsAscending(t[1..], token, status);
      var rest := Select(t[1..], token, status);
      forall i | 0 <= i < |rest| ensures t[0].createdAt < rest[i].createdAt {
        SelectedAreIn(t[1..], token, status, i);
      }
    }
  }

  /** Where the later rows begin, selecting begins. */
  lemma {:induction false} SplitSelects(rows: seq<Goal>, x: Time, j: nat)
    requires j <= |rows|
    requires forall i :: 0 <= i < j ==> rows[i].createdAt <= x
    requires forall i :: j <= i < |rows| ==> rows[i].createdAt > x
    ensures Select(rows, Some(x), None) == rows[j..]
  {
    if rows != [] {
      var rest := rows[1..];
      var k: nat := if j == 0 then 0 else j - 1;
      assert forall i :: 0 <= i < |rest| ==> rest[i] == rows[i + 1];
      SplitSelects(rest, x, k);
      if j == 0 {
        assert rows[0..] == [rows[0]] + rest[0..];
      } else {
        assert rows[j..] == rest[k..];
      }
    }
  }

  lemma AllLater(rows: seq<Goal>, x: Time)
    requires forall i :: 0 <= i < |rows| ==> rows[i].createdAt > x
    ensures Select(rows, Some(x), None) == rows
  {
    SplitSelects(rows, x, 0);
  }

  lemma NoneLater(rows: seq<Goal>, x: Time)
    requires forall i :: 0 <= i < |rows| ==> rows[i].createdAt <= x
    ensures Select(rows, Some(x), None) == []
  {
    SplitSelects(rows, x, |rows|);
  }

  /** Among ordered rows, what comes after row n - 1 by its time is what comes after it, if row n is not its equal;
      otherwise at least one row is passed over. */
  lemma SelectAfterRow(rows: seq<Goal>, n: nat)
    requires NonDescending(rows) && 1 <= n < |rows|
    ensures var x := rows[n - 1].createdAt;
      if x < rows[n].createdAt then Select(rows, Some(x), None) == rows[n..]
      else |Select(rows, Some(x), None)| < |rows| - n
  {
    var x := rows[n - 1].createdAt;
    if x < rows[n].createdAt {
      SplitSelects(rows, x, n);
    } else {
      assert rows == rows[..n] + rows[n..];
      SelectOfConcat(rows[..n], rows[n..], Some(x), None);
      NoneLater(rows[..n], x);
      assert rows[n..] == [rows[n]] + rows[n + 1..];
      SelectOfConcat([rows[n]], rows[n + 1..], Some(x), None);
    }
  }

  /** One page and what is left after its token, in the table as it was or as it has grown since. */
  lemma NextRows(t: seq<Goal>, grown: seq<Goal>, token: Option<Time>, status: Option<TaskState>, n: nat)
    requires t <= grown && Ascending(grown) && 1 <= n < |Select(t, token, status)|
    ensures var rows := Select(t, token, status);
      var all := Select(grown, token, status);
      rows <= all && Select(grown, Some(rows[n - 1].createdAt), status) == all[n..]
  {
    var rows, all := Select(t, token, status), Select(grown, token, status);
    assert grown == t + grown[|t|..];
    SelectOfConcat(t, grown[|t|..], token, status);
    SelectKeepsAscending(grown, token, status);
    SelectedAreIn(t, token, status, n - 1);
    LaterToken(grown, token, rows[n - 1].createdAt, status);
    SelectAfterRow(all, n);
  }

  // ---- goals are only appended: exactness --------------------------------------------------------------

  /** Between pages goals are only appended. */
  predicate Growing(tables: seq<seq<Goal>>) {
    forall i, j :: 0 <= i < j < |tables| ==> tables[i] <= tables[j]
  }

  predicate AllAscending(tables: seq<seq<Goal>>) {
    forall i :: 0 <= i < |tables| ==> Ascending(tables[i])
  }

  lemma LaterTables(tables: seq<seq<Goal>>)
    requires tables != [] && AllAscending(tables)
    ensures AllAscending(tables[1..]) && Ascending(tables[0])
    ensures Growing(tables) ==> Growing(tables[1..]) && forall i :: 0 <= i < |tables| ==> tables[0] <= tables[i]
  {
    if Growing(tables) {
      forall i, j | 0 <= i < j < |tables[1..]| ensures tables[1..][i] <= tables[1..][j] {
        assert tables[i + 1] <= tables[j + 1];
      }
    }
  }

  lemma TasksOfConcat(a: seq<Goal>, b: seq<Goal>)
    ensures TasksFrom(a) + TasksFrom(b) == TasksFrom(a + b)
  {
  }

  /** With distinct creation times, any page sizes, and newer goals appended between pages at will: a session that
      has reached its last page has listed exactly the matching goals, each once, in order, of the table as it was
      when that page was read. */
  lemma {:induction false} SessionIsExact(tables: seq<seq<Goal>>, sizes: seq<int>, status: Option<TaskState>,
                                          token: Option<Time>)
    requires |sizes| == |tables| && Growing(tables) && AllAscending(tables)
    requires Finished(Pages(tables, sizes, status, token))
    ensures var pages := Pages(tables, sizes, status, token);
      Joined(pages) == TasksFrom(Select(tables[|pages| - 1], token, status))
    decreases |tables|
  {
    FirstPage(tables, sizes, status, token);
    var pages := Pages(tables, sizes, status, token);
    if MoreThanAPage(tables[0], sizes[0], status, token) {
      LaterTables(tables);
      SessionIsExact(tables[1..], sizes[1..], status, pages[0].nextPageToken);
      var last := tables[1..][|pages[1..]| - 1];
      assert last == tables[|pages| - 1];
      FirstTableAndLast(tables, |pages| - 1);
      OnePageMore(tables[0], last, token, status, EffectiveSize(sizes[0]), pages);
    }
  }

  predicate MoreThanAPage(t: seq<Goal>, size: int, status: Option<TaskState>, token: Option<Time>) {
    |Select(t, token, status)| > EffectiveSize(size)
  }

  /** If what is listed after the first page is exact for a table, so is all that is listed. */
  lemma OnePageMore(t: seq<Goal>, last: seq<Goal>, token: Option<Time>, status: Option<TaskState>, n: nat, pages: seq<Page>)
    requires t <= last && Ascending(last) && 1 <= n < |Select(t, token, status)| && pages != []
    requires var (tasks, next) := Cut(Select(t, token, status), n);
      Joined(pages) == tasks + Joined(pages[1..]) && Joined(pages[1..]) == TasksFrom(Select(last, next, status))
    ensures Joined(pages) == TasksFrom(Select(last, token, status))
  {
    PageThenRest(t, last, token, status, n);
  }

  lemma FirstTableAndLast(tables: seq<seq<Goal>>, m: nat)
    requires Growing(tables) && AllAscending(tables) && m < |tables|
    ensures tables[0] <= tables[m] && Ascending(tables[m])
  {
  }

  /** The first page and everything after its token are everything. */
  lemma PageThenRest(t: seq<Goal>, last: seq<Goal>, token: Option<Time>, status: Option<TaskState>, n: nat)
    requires t <= last && Ascending(last) && 1 <= n < |Select(t, token, status)|
    ensures var rows := Select(t, token, status);
      var rest := Select(last, Some(rows[n - 1].createdAt), status);
      TasksFrom(rows[..n]) + TasksFrom(rest) == TasksFrom(Select(last, token, status))
    ensures |Select(last, Some(Select(t, token, status)[n - 1].createdAt), status)| < |Select(last, token, status)|
  {
    NextRows(t, last, token, status, n);
    PageAndRest(Select(t, token, status), Select(last, token, status), n);
  }

  lemma PageAndRest(rows: seq<Goal>, all: seq<Goal>, n: nat)
    requires rows <= all && n <= |rows|
    ensures TasksFrom(rows[..n]) + TasksFrom(all[n..]) == TasksFrom(all)
  {
    assert all[..n] == rows[..n] && all == all[..n] + all[n..];
    TasksOfConcat(rows[..n], all[n..]);
  }

  /** And it gets there: more pages than matching goals are never needed. */
  lemma {:induction false} SessionFinishes(tables: seq<seq<Goal>>, sizes: seq<int>, status: Option<TaskState>,
                                           token: Option<Time>)
    requires |sizes| == |tables| && Growing(tables) && AllAscending(tables)
    requires tables != [] && |Select(tables[|tables| - 1], token, status)| < |tables|
    ensures Finished(Pages(tables, sizes, status, token))
    decreases |tables|
  {
    FirstPage(tables, sizes, status, token);
    LaterTables(tables);
    var m := |tables| - 1;
    FirstTableAndLast(tables, m);
    if MoreThanAPage(tables[0], sizes[0], status, token) {
      FewerRowsLeft(tables, sizes, status, token);
      SessionFinishes(tables[1..], sizes[1..], status, Pages(tables, sizes, status, token)[0].nextPageToken);
    }
  }

  /** Each page that is not the last leaves fewer rows, and there is always a table left for the next page. */
  lemma FewerRowsLeft(tables: seq<seq<Goal>>, sizes: seq<int>, status: Option<TaskState>, token: Option<Time>)
    requires |sizes| == |tables| && tables != [] && MoreThanAPage(tables[0], sizes[0], status, token)
    requires tables[0] <= tables[|tables| - 1] && Ascending(tables[|tables| - 1])
    requires |Select(tables[|tables| - 1], token, status)| < |tables|
    ensures |tables| > 1
    ensures var next := Pages(tables, sizes, status, token)[0].nextPageToken;
      |Select(tables[1..][|tables| - 2], next, status)| < |tables| - 1
  {
    FirstPage(tables, sizes, status, token);
    var last := tables[|tables| - 1];
    FewerRowsBefore(tables[0], last, token, status);
    PageThenRest(tables[0], last, token, status, EffectiveSize(sizes[0]));
    assert tables[1..][|tables| - 2] == last;
  }

  lemma FewerRowsBefore(t: seq<Goal>, last: seq<Goal>, token: Option<Time>, status: Option<TaskState>)
    requires t <= last
    ensures |Select(t, token, status)| <= |Select(last, token, status)|
  {
    assert last == t + last[|t|..];
    SelectOfConcat(t, last[|t|..], token, status);
  }

  // ---- goals also change status, and appear anywhere ---------------------------------------------------

  /** Tasks are listed in strictly increasing creation time, all after the token, so never twice. */
  predicate AscendingTasks(tasks: seq<Task>, token: Option<Time>) {
    && (forall i :: 0 <= i < |tasks| && token.Some? ==> token.value < tasks[i].timestamp)
    && (forall i, j :: 0 <= i < j < |tasks| ==> tasks[i].timestamp < tasks[j].timestamp)
  }

  lemma PageAscends(t: seq<Goal>, token: Option<Time>, status: Option<TaskState>, n: nat)
    requires Ascending(t) && n >= 1
    ensures var (tasks, next) := Cut(Select(t, token, status), n);
      && AscendingTasks(tasks, token)
      && (next.Some? && token.Some? ==> token.value < next.value)
      && (next.Some? ==> forall i :: 0 <= i < |tasks| ==> tasks[i].timestamp <= next.value)
  {
    SelectKeepsAscending(t, token, status);
    var rows := Select(t, token, status);
    forall i | 0 <= i < |rows| ensures IsAfter(rows[i], token) {
      SelectedAreIn(t, token, status, i);
    }
    CutAscends(rows, token, n);
  }

  lemma CutAscends(rows: seq<Goal>, token: Option<Time>, n: nat)
    requires Ascending(rows) && n >= 1 && forall i :: 0 <= i < |rows| ==> IsAfter(rows[i], token)
    ensures var (tasks, next) := Cut(rows, n);
      && AscendingTasks(tasks, token)
      && (next.Some? && token.Some? ==> token.value < next.value)
      && (next.Some? ==> forall i :: 0 <= i < |tasks| ==> tasks[i].timestamp <= next.value)
  {
    var tasks := Cut(rows, n).0;
    assert forall i :: 0 <= i < |tasks| ==> tasks[i].timestamp == rows[i].createdAt;
  }

  /** With distinct creation times, whatever happens to statuses between pages, tasks are listed in strictly increasing
      creation time. */
  lemma {:induction false} ListedInOrder(tables: seq<seq<Goal>>, sizes: seq<int>, status: Option<TaskState>,
                                         token: Option<Time>)
    requires |sizes| == |tables| && AllAscending(tables)
    ensures AscendingTasks(Joined(Pages(tables, sizes, status, token)), token)
    decreases |tables|
  {
    if tables != [] {
      FirstPage(tables, sizes, status, token);
      LaterTables(tables);
      PageAscends(tables[0], token, status, EffectiveSize(sizes[0]));
      var next := Pages(tables, sizes, status, token)[0].nextPageToken;
      if next.Some? {
        ListedInOrder(tables[1..], sizes[1..], status, next);
      }
    }
  }

  /** An id names one goal per table, and a goal keeps its creation time; rows of one time may come in another order
      each time. */
  predicate IdsNameGoals(tables: seq<seq<Goal>>) {
    && (forall m :: 0 <= m < |tables| ==> NonDescending(tables[m]) && DistinctIds(tables[m]))
    && (forall m, n :: 0 <= m < |tables| && 0 <= n < |tables| ==> TimesAgree(tables[m], tables[n]))
  }

  predicate TimesAgree(a: seq<Goal>, b: seq<Goal>) {
    forall i, j :: 0 <= i < |a| && 0 <= j < |b| && a[i].id == b[j].id ==> a[i].createdAt == b[j].createdAt
  }

  predicate IsRow(t: seq<Goal>, task: Task) {
    exists k :: 0 <= k < |t| && t[k].id == task.id && t[k].createdAt == task.timestamp
  }

  predicate IsRowOfOne(tables: seq<seq<Goal>>, task: Task) {
    exists m :: 0 <= m < |tables| && IsRow(tables[m], task)
  }

  lemma PageRows(t: seq<Goal>, token: Option<Time>, status: Option<TaskState>, n: nat, i: nat)
    requires NonDescending(t) && n >= 1 && i < |Cut(Select(t, token, status), n).0|
    ensures var (tasks, next) := Cut(Select(t, token, status), n);
      && IsRow(t, tasks[i]) && (token.Some? ==> tasks[i].timestamp > token.value)
      && (next.Some? ==> tasks[i].timestamp <= next.value)
      && (next.Some? && token.Some? ==> next.value > token.value)
  {
    var rows := Select(t, token, status);
    SelectKeepsNonDescending(t, token, status);
    SelectedAreIn(t, token, status, i);
    if |rows| > n {
      SelectedAreIn(t, token, status, n - 1);
    }
  }

  predicate AllNonDescending(tables: seq<seq<Goal>>) {
    forall i :: 0 <= i < |tables| ==> NonDescending(tables[i])
  }

  lemma LaterOnes(tables: seq<seq<Goal>>)
    requires tables != [] && AllNonDescending(tables)
    ensures NonDescending(tables[0]) && AllNonDescending(tables[1..])
  {
    assert forall i :: 0 <= i < |tables[1..]| ==> tables[1..][i] == tables[i + 1];
  }

  /** What is listed after a token are rows after that token. */
  lemma {:induction false} ListedAreRows(tables: seq<seq<Goal>>, sizes: seq<int>, status: Option<TaskState>,
                                         token: Option<Time>, task: Task)
    requires |sizes| == |tables| && AllNonDescending(tables)
    requires task in Joined(Pages(tables, sizes, status, token))
    ensures IsRowOfOne(tables, task) && (token.Some? ==> task.timestamp > token.value)
    decreases |tables|
  {
    FirstPage(tables, sizes, status, token);
    LaterOnes(tables);
    var pages := Pages(tables, sizes, status, token);
    if i :| 0 <= i < |pages[0].tasks| && pages[0].tasks[i] == task {
      PageRows(tables[0], token, status, EffectiveSize(sizes[0]), i);
      assert IsRow(tables[0], task);
    } else {
      assert task in Joined(pages[1..]);
      ListedAreRows(tables[1..], sizes[1..], status, pages[0].nextPageToken, task);
      var m :| 0 <= m < |tables[1..]| && IsRow(tables[1..][m], task);
      assert IsRow(tables[m + 1], task);
      PageRows(tables[0], token, status, EffectiveSize(sizes[0]), 0);
    }
  }

  predicate DistinctTasks(tasks: seq<Task>) {
    forall i, j :: 0 <= i < j < |tasks| ==> tasks[i].id != tasks[j].id
  }

  lemma {:induction false} SelectKeepsDistinct(t: seq<Goal>, token: Option<Time>, status: Option<TaskState>)
    requires DistinctIds(t)
    ensures DistinctIds(Select(t, token, status))
  {
    if t != [] {
      SelectKeepsDistinct(t[1..], token, status);
      var rest := Select(t[1..], token, status);
      forall i | 0 <= i < |rest| ensures t[0].id != rest[i].id {
        SelectedAreIn(t[1..], token, status, i);
      }
    }
  }

  lemma PageIsDistinct(t: seq<Goal>, token: Option<Time>, status: Option<TaskState>, n: nat)
    requires DistinctIds(t) && n >= 1
    ensures DistinctTasks(Cut(Select(t, token, status), n).0)
  {
    SelectKeepsDistinct(t, token, status);
  }

  lemma DistinctTogether(a: seq<Task>, b: seq<Task>)
    requires DistinctTasks(a) && DistinctTasks(b)
    requires forall i, j :: 0 <= i < |a| && 0 <= j < |b| ==> a[i].id != b[j].id
    ensures DistinctTasks(a + b)
  {
  }

  lemma LaterIdsNameGoals(tables: seq<seq<Goal>>)
    requires tables != [] && IdsNameGoals(tables)
    ensures IdsNameGoals(tables[1..])
  {
    var later := tables[1..];
    forall m | 0 <= m < |later| ensures NonDescending(later[m]) && DistinctIds(later[m]) {
      assert later[m] == tables[m + 1];
    }
    forall m, n | 0 <= m < |later| && 0 <= n < |later| ensures TimesAgree(later[m], later[n]) {
      assert TimesAgree(tables[m + 1], tables[n + 1]);
    }
  }

  /** A task of the first page and one of a later page are never of the same goal: the token is between their times. */
  lemma PagesAreApart(tables: seq<seq<Goal>>, sizes: seq<int>, status: Option<TaskState>, token: Option<Time>,
                      i: nat, again: Task)
    requires |sizes| == |tables| && tables != [] && IdsNameGoals(tables)
    requires var pages := Pages(tables, sizes, status, token); i < |pages[0].tasks| && again in Joined(pages[1..])
    ensures Pages(tables, sizes, status, token)[0].tasks[i].id != again.id
  {
    FirstPage(tables, sizes, status, token);
    LaterIdsNameGoals(tables);
    var task := Pages(tables, sizes, status, token)[0].tasks[i];
    var next := Pages(tables, sizes, status, token)[0].nextPageToken;
    PageRows(tables[0], token, status, EffectiveSize(sizes[0]), i);
    ListedAreRows(tables[1..], sizes[1..], status, next, again);
    var m :| 0 <= m < |tables[1..]| && IsRow(tables[1..][m], again);
    assert TimesAgree(tables[0], tables[m + 1]);
    assert task.timestamp < again.timestamp;
  }

  /** No task is ever listed twice, whatever happens between pages: goals may share creation times, be created, even
      behind the token, and change status. */
  lemma {:induction false} NeverListedTwice(tables: seq<seq<Goal>>, sizes: seq<int>, status: Option<TaskState>,
                                            token: Option<Time>)
    requires |sizes| == |tables| && IdsNameGoals(tables)
    ensures DistinctTasks(Joined(Pages(tables, sizes, status, token)))
    decreases |tables|
  {
    if tables != [] {
      FirstPage(tables, sizes, status, token);
      LaterIdsNameGoals(tables);
      var pages := Pages(tables, sizes, status, token);
      var (first, rest) := (pages[0].tasks, Joined(pages[1..]));
      if pages[0].nextPageToken.Some? {
        NeverListedTwice(tables[1..], sizes[1..], status, pages[0].nextPageToken);
      }
      forall i, j | 0 <= i < |first| && 0 <= j < |rest| ensures first[i].id != rest[j].id {
        assert rest[j] in rest;
        PagesAreApart(tables, sizes, status, token, i, rest[j]);
      }
      PageIsDistinct(tables[0], token, status, EffectiveSize(sizes[0]));
      DistinctTogether(first, rest);
    }
  }

  // ---- goals created in the same millisecond -----------------------------------------------------------

  /** No page boundary falls between two rows with the same creation time. */
  predicate BoundariesAreClean(rows: seq<Goal>, sizes: seq<int>)
    decreases |sizes|
  {
    if sizes == [] || |rows| <= EffectiveSize(sizes[0]) then true
    else
      var n := EffectiveSize(sizes[0]);
      rows[n - 1].createdAt < rows[n].createdAt && BoundariesAreClean(rows[n..], sizes[1..])
  }

  function Same(t: seq<Goal>, n: nat): seq<seq<Goal>> {
    seq(n, _ => t)
  }

  lemma SameAgain(t: seq<Goal>, sizes: seq<int>)
    requires sizes != []
    ensures Same(t, |sizes|) != [] && Same(t, |sizes|)[0] == t && Same(t, |sizes|)[1..] == Same(t, |sizes[1..]|)
  {
  }

  lemma NoMoreThanRows(t: seq<Goal>, sizes: seq<int>, status: Option<TaskState>, token: Option<Time>)
    requires NonDescending(t)
    ensures |Joined(Pages(Same(t, |sizes|), sizes, status, token))| <= |Select(t, token, status)|
  {
    TiesAreOnlySkipped(t, sizes, status, token);
    SubsequenceIsNotLonger(Joined(Pages(Same(t, |sizes|), sizes, status, token)), TasksFrom(Select(t, token, status)));
  }

  lemma {:induction false} SubsequenceIsNotLonger(a: seq<Task>, b: seq<Task>)
    requires IsSubsequence(a, b)
    ensures |a| <= |b|
    decreases |b|
  {
    if a != [] {
      if a[0] == b[0] && IsSubsequence(a[1..], b[1..]) {
        SubsequenceIsNotLonger(a[1..], b[1..]);
      } else {
        SubsequenceIsNotLonger(a, b[1..]);
      }
    }
  }

  lemma RestOfRows(t: seq<Goal>, token: Option<Time>, status: Option<TaskState>, n: nat)
    requires NonDescending(t) && 1 <= n < |Select(t, token, status)|
    ensures var rows := Select(t, token, status);
      var rest := Select(t, Some(rows[n - 1].createdAt), status);
      if rows[n - 1].createdAt < rows[n].createdAt then rest == rows[n..] else |rest| < |rows| - n
  {
    var rows := Select(t, token, status);
    SelectKeepsNonDescending(t, token, status);
    SelectedAreIn(t, token, status, n - 1);
    LaterToken(t, token, rows[n - 1].createdAt, status);
    SelectAfterRow(rows, n);
  }

  lemma JoinAtBoundary(rows: seq<Goal>, n: nat, listed: seq<Task>)
    requires n < |rows|
    ensures TasksFrom(rows[..n]) + listed == TasksFrom(rows) <==> listed == TasksFrom(rows[n..])
    ensures |TasksFrom(rows[..n]) + listed| == n + |listed|
  {
    assert rows == rows[..n] + rows[n..];
    TasksOfConcat(rows[..n], rows[n..]);
    assert (TasksFrom(rows[..n]) + listed)[n..] == listed;
    assert TasksFrom(rows)[n..] == TasksFrom(rows[n..]);
  }

  /** Over a table that does not change, with creation times that may coincide, a finished session lists every
      matching goal if and only if no page boundary falls between two of the same creation time; otherwise it lists
      fewer. */
  lemma {:induction false} TiesAreLostAtBoundaries(t: seq<Goal>, sizes: seq<int>, status: Option<TaskState>,
                                                   token: Option<Time>)
    requires NonDescending(t) && Finished(Pages(Same(t, |sizes|), sizes, status, token))
    ensures var (listed, rows) := (Joined(Pages(Same(t, |sizes|), sizes, status, token)), Select(t, token, status));
      && (listed == TasksFrom(rows) <==> BoundariesAreClean(rows, sizes))
      && (!BoundariesAreClean(rows, sizes) ==> |listed| < |rows|)
    decreases |sizes|
  {
    SameAgain(t, sizes);
    FirstPage(Same(t, |sizes|), sizes, status, token);
    var rows := Select(t, token, status);
    var n := EffectiveSize(sizes[0]);
    if |rows| > n {
      var next := Some(rows[n - 1].createdAt);
      RestOfRows(t, token, status, n);
      TiesAreLostAtBoundaries(t, sizes[1..], status, next);
      NoMoreThanRows(t, sizes[1..], status, next);
      JoinAtBoundary(rows, n, Joined(Pages(Same(t, |sizes[1..]|), sizes[1..], status, next)));
    }
  }

  /** `a` is `b` with some elements left out. */
  predicate IsSubsequence(a: seq<Task>, b: seq<Task>)
    decreases |b|
  {
    a == [] || (b != [] && ((a[0] == b[0] && IsSubsequence(a[1..], b[1..])) || IsSubsequence(a, b[1..])))
  }

  lemma {:induction false} SubsequenceAfter(a: seq<Task>, skipped: seq<Task>, b: seq<Task>)
    requires IsSubsequence(a, b)
    ensures IsSubsequence(a, skipped + b)
    decreases |skipped|
  {
    if skipped == [] {
      assert skipped + b == b;
    } else {
      SubsequenceAfter(a, skipped[1..], b);
      assert (skipped + b)[1..] == skipped[1..] + b;
    }
  }

  lemma {:induction false} SubsequenceBehind(same: seq<Task>, a: seq<Task>, b: seq<Task>)
    requires IsSubsequence(a, b)
    ensures IsSubsequence(same + a, same + b)
    decreases |same|
  {
    if same == [] {
      assert same + a == a && same + b == b;
    } else {
      SubsequenceBehind(same[1..], a, b);
      assert (same + a)[1..] == same[1..] + a && (same + b)[1..] == same[1..] + b;
    }
  }

  /** What comes after a time among ordered rows is what follows some position. */
  lemma AfterIsATail(rows: seq<Goal>, x: Time) returns (j: nat)
    requires NonDescending(rows)
    ensures j <= |rows| && Select(rows, Some(x), None) == rows[j..]
    ensures forall i :: 0 <= i < j ==> rows[i].createdAt <= x
    ensures forall i :: j <= i < |rows| ==> rows[i].createdAt > x
  {
    j := Position(rows, x);
    PositionSplits(rows, x);
    SplitSelects(rows, x, j);
  }

  /** What is left after a page is a tail of what was left, from the end of the page on or later. */
  lemma RestIsATail(t: seq<Goal>, token: Option<Time>, status: Option<TaskState>, n: nat) returns (j: nat)
    requires NonDescending(t) && 1 <= n < |Select(t, token, status)|
    ensures var rows := Select(t, token, status);
      n <= j <= |rows| && Select(t, Some(rows[n - 1].createdAt), status) == rows[j..]
  {
    var rows := Select(t, token, status);
    SelectKeepsNonDescending(t, token, status);
    SelectedAreIn(t, token, status, n - 1);
    LaterToken(t, token, rows[n - 1].createdAt, status);
    j := AfterIsATail(rows, rows[n - 1].createdAt);
  }

  lemma PageBeforeTail(rows: seq<Goal>, n: nat, j: nat, rest: seq<Task>)
    requires n <= j <= |rows| && IsSubsequence(rest, TasksFrom(rows[j..]))
    ensures IsSubsequence(TasksFrom(rows[..n]) + rest, TasksFrom(rows))
  {
    assert rows[n..] == rows[n..j] + rows[j..] && rows == rows[..n] + rows[n..];
    TasksOfConcat(rows[n..j], rows[j..]);
    SubsequenceAfter(rest, TasksFrom(rows[n..j]), TasksFrom(rows[j..]));
    TasksOfConcat(rows[..n], rows[n..]);
    SubsequenceBehind(TasksFrom(rows[..n]), rest, TasksFrom(rows[n..]));
  }

  lemma {:induction false} WholeIsASubsequence(a: seq<Task>)
    ensures IsSubsequence(a, a)
  {
    if a != [] {
      WholeIsASubsequence(a[1..]);
    }
  }

  /** Over a table that does not change a session, finished or not, only ever leaves rows out: what it lists are
      matching goals, in order, none twice. */
  lemma {:induction false} TiesAreOnlySkipped(t: seq<Goal>, sizes: seq<int>, status: Option<TaskState>,
                                              token: Option<Time>)
    requires NonDescending(t)
    ensures IsSubsequence(Joined(Pages(Same(t, |sizes|), sizes, status, token)), TasksFrom(Select(t, token, status)))
    decreases |sizes|
  {
    if sizes != [] {
      SameAgain(t, sizes);
      FirstPage(Same(t, |sizes|), sizes, status, token);
      var rows := Select(t, token, status);
      var n := EffectiveSize(sizes[0]);
      if |rows| > n {
        var next := Some(rows[n - 1].createdAt);
        var j := RestIsATail(t, token, status, n);
        TiesAreOnlySkipped(t, sizes[1..], status, next);
        PageBeforeTail(rows, n, j, Joined(Pages(Same(t, |sizes[1..]|), sizes[1..], status, next)));
      } else {
        WholeIsASubsequence(TasksFrom(rows));
      }
    }
  }

  /** And it does leave out: of two goals of one time, pages of one list only the first. */
  lemma ATieIsLost(first: Goal, second: Goal)
    requires first.createdAt == second.createdAt && first.id != second.id
    ensures var pages := Pages(Same([first, second], 2), [1, 1], None, None);
      Finished(pages) && Joined(pages) == [TaskFromGoal(first)] && TaskFromGoal(second) !in Joined(pages)
  {
    var t := [first, second];
    var sizes := [1, 1];
    assert t == [first] + [second];
    assert Select([second], None, None) == [second] && Select(t, None, None) == t;
    NoneLater(t, first.createdAt);
    SameAgain(t, sizes);
    FirstPage(Same(t, 2), sizes, None, None);
    SameAgain(t, sizes[1..]);
    FirstPage(Same(t, 1), sizes[1..], None, Some(first.createdAt));
    var pages := Pages(Same(t, 2), sizes, None, None);
    assert pages[0].tasks == TasksFrom(t[..1]) == [TaskFromGoal(first)];
    assert TasksFrom([]) == [];
  }
}
