/** Which goals a session lists when goals can appear anywhere in the table, and change status, between its pages. */
module Coverage {
  import opened Wrappers
  import opened TaskStore
  import opened Pagination

  /** A goal of this id and creation time. */
  predicate Present(t: seq<Goal>, id: string, time: Time) {
    exists k :: 0 <= k < |t| && t[k].id == id && t[k].createdAt == time
  }

  /** ... whose status passes the filter. */
  predicate Visible(t: seq<Goal>, id: string, time: Time, status: Option<TaskState>) {
    exists k :: 0 <= k < |t| && t[k].id == id && t[k].createdAt == time && HasStatus(t[k], status)
  }

  predicate Lists(pages: seq<Page>, id: string, time: Time) {
    HasTask(Joined(pages), id, time)
  }

  predicate HasTask(tasks: seq<Task>, id: string, time: Time) {
    exists i :: 0 <= i < |tasks| && tasks[i].id == id && tasks[i].timestamp == time
  }

  predicate Beyond(time: Time, token: Option<Time>) {
    token.None? || time > token.value
  }

  // ---- the page that covers a time ---------------------------------------------------------------------

  /** The page covers this time: it is after the token the page was asked for with, and not after the one it
      gave. */
  predicate Covers(pages: seq<Page>, token: Option<Time>, m: nat, time: Time)
    requires m < |pages|
  {
    && Beyond(time, if m == 0 then token else pages[m - 1].nextPageToken)
    && !(pages[m].nextPageToken.Some? && Beyond(time, pages[m].nextPageToken))
  }

  /** The first page that does not give a token before this time. */
  function PageOf(pages: seq<Page>, time: Time): (m: nat)
    ensures m <= |pages|
  {
    if pages == [] || pages[0].nextPageToken.None? || time <= pages[0].nextPageToken.value then 0
    else 1 + PageOf(pages[1..], time)
  }

  /** What is known of the token of one page. */
  predicate TokenUp(pages: seq<Page>, token: Option<Time>, m: nat)
    requires m < |pages|
  {
    && (pages[m].nextPageToken.None? ==> m == |pages| - 1)
    && (m > 0 ==> pages[m - 1].nextPageToken.Some?)
    && (pages[m].nextPageToken.Some? ==>
          && Beyond(pages[m].nextPageToken.value, token)
          && (m > 0 ==> Beyond(pages[m].nextPageToken.value, pages[m - 1].nextPageToken)))
  }

  lemma TokenUpLater(pages: seq<Page>, token: Option<Time>, m: nat)
    requires 0 < m < |pages| && pages[0].nextPageToken.Some? && Beyond(pages[0].nextPageToken.value, token)
    requires TokenUp(pages[1..], pages[0].nextPageToken, m - 1)
    ensures TokenUp(pages, token, m)
  {
    assert pages[m] == pages[1..][m - 1];
    assert m > 1 ==> pages[m - 1] == pages[1..][m - 2];
  }

  lemma FirstTokenUp(t: seq<Goal>, token: Option<Time>, status: Option<TaskState>, n: nat)
    requires NonDescending(t) && n >= 1
    ensures var next := Cut(Select(t, token, status), n).1; next.Some? ==> Beyond(next.value, token)
  {
    if |Select(t, token, status)| > n {
      PageRows(t, token, status, n, 0);
    }
  }

  /** The tokens of a session go up, and only its last page can be without one. */
  lemma {:induction false} TokensGoUp(tables: seq<seq<Goal>>, sizes: seq<int>, status: Option<TaskState>,
                                      token: Option<Time>, m: nat)
    requires |sizes| == |tables| && AllNonDescending(tables)
    requires m < |Pages(tables, sizes, status, token)|
    ensures TokenUp(Pages(tables, sizes, status, token), token, m)
    decreases |tables|
  {
    FirstPage(tables, sizes, status, token);
    LaterOnes(tables);
    FirstTokenUp(tables[0], token, status, EffectiveSize(sizes[0]));
    var pages := Pages(tables, sizes, status, token);
    if m > 0 {
      TokensGoUp(tables[1..], sizes[1..], status, pages[0].nextPageToken, m - 1);
      TokenUpLater(pages, token, m);
    }
  }

  lemma {:induction false} PageOfIsFirst(pages: seq<Page>, time: Time)
    ensures var m := PageOf(pages, time);
      && (forall n :: 0 <= n < m ==> pages[n].nextPageToken.Some? && time > pages[n].nextPageToken.value)
      && (m < |pages| ==> pages[m].nextPageToken.None? || time <= pages[m].nextPageToken.value)
      && (Finished(pages) ==> m < |pages|)
  {
    if pages != [] && pages[0].nextPageToken.Some? && time > pages[0].nextPageToken.value {
      PageOfIsFirst(pages[1..], time);
      assert forall n :: 0 < n < PageOf(pages, time) ==> pages[n] == pages[1..][n - 1];
      if Finished(pages) && |pages| > 1 {
        assert pages[1..][|pages| - 2] == pages[|pages| - 1];
      }
    }
  }

  /** The pages of a finished session share out all times after its first token: each is covered by one page. */
  lemma OnePageCoversEachTime(tables: seq<seq<Goal>>, sizes: seq<int>, status: Option<TaskState>, token: Option<Time>,
                              time: Time, m: nat)
    requires |sizes| == |tables| && AllNonDescending(tables) && Beyond(time, token)
    requires var pages := Pages(tables, sizes, status, token); Finished(pages) && m < |pages|
    ensures var pages := Pages(tables, sizes, status, token);
      Covers(pages, token, m, time) <==> m == PageOf(pages, time)
  {
    var pages := Pages(tables, sizes, status, token);
    PageOfIsFirst(pages, time);
    if PageOf(pages, time) < m {
      TimesAreCoveredOnce(tables, sizes, status, token, time, PageOf(pages, time), m);
    }
  }

  /** Once a time is not beyond a page's token, it is before all that later pages cover. */
  lemma {:induction false} TimesAreCoveredOnce(tables: seq<seq<Goal>>, sizes: seq<int>, status: Option<TaskState>,
                                               token: Option<Time>, time: Time, first: nat, m: nat)
    requires |sizes| == |tables| && AllNonDescending(tables)
    requires var pages := Pages(tables, sizes, status, token);
      && first < m < |pages| && !(pages[first].nextPageToken.Some? && Beyond(time, pages[first].nextPageToken))
    ensures !Beyond(time, Pages(tables, sizes, status, token)[m - 1].nextPageToken)
    decreases m
  {
    TokensGoUp(tables, sizes, status, token, first);
    if first < m - 1 {
      TimesAreCoveredOnce(tables, sizes, status, token, time, first, m - 1);
      TokensGoUp(tables, sizes, status, token, m - 1);
      TokensGoUp(tables, sizes, status, token, m);
    }
  }

  // ---- what one page lists -----------------------------------------------------------------------------

  lemma ListedAreVisible(t: seq<Goal>, token: Option<Time>, status: Option<TaskState>, n: nat, id: string, time: Time)
    requires n >= 1 && HasTask(Cut(Select(t, token, status), n).0, id, time)
    ensures Visible(t, id, time, status) && Beyond(time, token)
  {
    var rows := Select(t, token, status);
    var tasks := Cut(rows, n).0;
    var i :| 0 <= i < |tasks| && tasks[i].id == id && tasks[i].timestamp == time;
    SelectedHaveStatus(t, token, status);
    assert rows[i] in rows && rows[i] in t;
    var k :| 0 <= k < |t| && t[k] == rows[i];
    assert HasStatus(t[k], status);
  }

  lemma OnThePageOrLater(t: seq<Goal>, k: nat, token: Option<Time>, status: Option<TaskState>, n: nat)
    requires NonDescending(t) && n >= 1 && k < |t| && IsAfter(t[k], token) && HasStatus(t[k], status)
    ensures var (tasks, next) := Cut(Select(t, token, status), n);
      TaskFromGoal(t[k]) in tasks || (next.Some? && next.value <= t[k].createdAt)
  {
    var rows := Select(t, token, status);
    SelectKeepsNonDescending(t, token, status);
    SelectedHaveStatus(t, token, status);
    assert t[k] in rows;
    var i :| 0 <= i < |rows| && rows[i] == t[k];
    var (tasks, next) := Cut(rows, n);
    if i < |tasks| {
      assert tasks[i] == TaskFromGoal(t[k]);
    }
  }

  lemma VisibleAreListed(t: seq<Goal>, token: Option<Time>, status: Option<TaskState>, n: nat, id: string, time: Time)
    requires NonDescending(t) && n >= 1 && Visible(t, id, time, status) && Beyond(time, token)
    ensures var (tasks, next) := Cut(Select(t, token, status), n);
      HasTask(tasks, id, time) || (next.Some? && next.value <= time)
  {
    var k :| 0 <= k < |t| && t[k].id == id && t[k].createdAt == time && HasStatus(t[k], status);
    OnThePageOrLater(t, k, token, status, n);
    var tasks := Cut(Select(t, token, status), n).0;
    if TaskFromGoal(t[k]) in tasks {
      var i :| 0 <= i < |tasks| && tasks[i] == TaskFromGoal(t[k]);
    }
  }

  /** With distinct creation times the row a page ends on is the only one of its time. */
  lemma CutRowIsListed(t: seq<Goal>, token: Option<Time>, status: Option<TaskState>, n: nat, id: string, time: Time)
    requires Ascending(t) && n >= 1 && Visible(t, id, time, status)
    requires Cut(Select(t, token, status), n).1 == Some(time)
    ensures HasTask(Cut(Select(t, token, status), n).0, id, time)
  {
    var k :| 0 <= k < |t| && t[k].id == id && t[k].createdAt == time && HasStatus(t[k], status);
    SelectedAreIn(t, token, status, n - 1);
    var j :| 0 <= j < |t| && t[j] == Select(t, token, status)[n - 1];
    assert j == k;
    assert Cut(Select(t, token, status), n).0[n - 1] == TaskFromGoal(t[k]);
  }

  lemma NotAfterItsToken(t: seq<Goal>, token: Option<Time>, status: Option<TaskState>, n: nat, id: string, time: Time)
    requires NonDescending(t) && n >= 1 && HasTask(Cut(Select(t, token, status), n).0, id, time)
    ensures var next := Cut(Select(t, token, status), n).1; next.Some? ==> time <= next.value
  {
    var tasks := Cut(Select(t, token, status), n).0;
    var i :| 0 <= i < |tasks| && tasks[i].id == id && tasks[i].timestamp == time;
    PageRows(t, token, status, n, i);
  }

  // ---- what a session lists ----------------------------------------------------------------------------

  lemma HasTaskOfConcat(a: seq<Task>, b: seq<Task>, id: string, time: Time)
    ensures HasTask(a + b, id, time) <==> HasTask(a, id, time) || HasTask(b, id, time)
  {
    if HasTask(a, id, time) {
      var i :| 0 <= i < |a| && a[i].id == id && a[i].timestamp == time;
      assert (a + b)[i] == a[i];
    }
    if HasTask(b, id, time) {
      var i :| 0 <= i < |b| && b[i].id == id && b[i].timestamp == time;
      assert (a + b)[|a| + i] == b[i];
    }
  }

  /** Nothing at or before a token is listed after it. */
  lemma NothingBehind(tables: seq<seq<Goal>>, sizes: seq<int>, status: Option<TaskState>, token: Option<Time>,
                      id: string, time: Time)
    requires |sizes| == |tables| && AllNonDescending(tables) && !Beyond(time, token)
    ensures !Lists(Pages(tables, sizes, status, token), id, time)
  {
    var tasks := Joined(Pages(tables, sizes, status, token));
    if i :| 0 <= i < |tasks| && tasks[i].id == id && tasks[i].timestamp == time {
      ListedAreRows(tables, sizes, status, token, tasks[i]);
    }
  }

  /** A time that is not beyond the first page's token is listed on the first page or never. */
  lemma FirstPageOrNever(tables: seq<seq<Goal>>, sizes: seq<int>, status: Option<TaskState>, token: Option<Time>,
                         id: string, time: Time)
    requires |sizes| == |tables| && tables != [] && AllNonDescending(tables)
    requires var pages := Pages(tables, sizes, status, token);
      pages[0].nextPageToken.Some? ==> !Beyond(time, pages[0].nextPageToken)
    ensures var pages := Pages(tables, sizes, status, token);
      Lists(pages, id, time) <==> HasTask(pages[0].tasks, id, time)
  {
    FirstPage(tables, sizes, status, token);
    var pages := Pages(tables, sizes, status, token);
    HasTaskOfConcat(pages[0].tasks, Joined(pages[1..]), id, time);
    if pages[0].nextPageToken.Some? {
      LaterOnes(tables);
      NothingBehind(tables[1..], sizes[1..], status, pages[0].nextPageToken, id, time);
    }
  }

  /** A time beyond the first page's token is listed on a later page or never. */
  lemma LaterOrNever(tables: seq<seq<Goal>>, sizes: seq<int>, status: Option<TaskState>, token: Option<Time>,
                     id: string, time: Time)
    requires |sizes| == |tables| && tables != [] && AllNonDescending(tables)
    requires var pages := Pages(tables, sizes, status, token);
      pages[0].nextPageToken.Some? && Beyond(time, pages[0].nextPageToken)
    ensures var pages := Pages(tables, sizes, status, token);
      Lists(pages, id, time) <==> Lists(Pages(tables[1..], sizes[1..], status, pages[0].nextPageToken), id, time)
  {
    FirstPage(tables, sizes, status, token);
    var pages := Pages(tables, sizes, status, token);
    HasTaskOfConcat(pages[0].tasks, Joined(pages[1..]), id, time);
    LaterOnes(tables);
    if HasTask(pages[0].tasks, id, time) {
      NotAfterItsToken(tables[0], token, status, EffectiveSize(sizes[0]), id, time);
      assert false;
    }
  }

  /** Whatever is inserted anywhere and whatever status is written between pages: a finished session lists only goals
      that were there, with a status that passes the filter, when the page that covers their time was read; and all of
      those whose time is not the very time that page ends on, or that share their time with no other goal. */
  lemma {:induction false} ListedWereVisible(tables: seq<seq<Goal>>, sizes: seq<int>, status: Option<TaskState>,
                                             token: Option<Time>, id: string, time: Time)
    requires |sizes| == |tables| && AllNonDescending(tables) && Beyond(time, token)
    requires Finished(Pages(tables, sizes, status, token))
    ensures var pages := Pages(tables, sizes, status, token);
      var m := PageOf(pages, time);
      && m < |pages|
      && (Lists(pages, id, time) ==> Visible(tables[m], id, time, status))
      && (Visible(tables[m], id, time, status) && (pages[m].nextPageToken != Some(time) || Ascending(tables[m])) ==>
            Lists(pages, id, time))
    decreases |tables|
  {
    FirstPage(tables, sizes, status, token);
    LaterOnes(tables);
    var pages := Pages(tables, sizes, status, token);
    var next := pages[0].nextPageToken;
    if next.Some? && Beyond(time, next) {
      LaterOrNever(tables, sizes, status, token, id, time);
      ListedWereVisible(tables[1..], sizes[1..], status, next, id, time);
      assert tables[1..][PageOf(pages[1..], time)] == tables[PageOf(pages, time)];
    } else {
      FirstPageOrNever(tables, sizes, status, token, id, time);
      FirstPageLists(tables[0], token, status, EffectiveSize(sizes[0]), id, time);
    }
  }

  lemma FirstPageLists(t: seq<Goal>, token: Option<Time>, status: Option<TaskState>, n: nat, id: string, time: Time)
    requires NonDescending(t) && n >= 1 && Beyond(time, token)
    requires var next := Cut(Select(t, token, status), n).1; next.Some? ==> time <= next.value
    ensures var (tasks, next) := Cut(Select(t, token, status), n);
      && (HasTask(tasks, id, time) ==> Visible(t, id, time, status))
      && (Visible(t, id, time, status) && (next != Some(time) || Ascending(t)) ==> HasTask(tasks, id, time))
  {
    var (tasks, next) := Cut(Select(t, token, status), n);
    if HasTask(tasks, id, time) {
      ListedAreVisible(t, token, status, n, id, time);
    } else if Visible(t, id, time, status) {
      VisibleAreListed(t, token, status, n, id, time);
      if Ascending(t) {
        CutRowIsListed(t, token, status, n, id, time);
      }
    }
  }

  /** With distinct creation times, whatever is inserted anywhere and whatever status is written between pages, a
      finished session lists a goal if and only if it was there, with a status that passes the filter, when the one
      page that covers its time was read. */
  lemma ListedIffVisibleAtItsPage(tables: seq<seq<Goal>>, sizes: seq<int>, status: Option<TaskState>,
                                  token: Option<Time>, id: string, time: Time)
    requires |sizes| == |tables| && AllAscending(tables) && Beyond(time, token)
    requires Finished(Pages(tables, sizes, status, token))
    ensures var pages := Pages(tables, sizes, status, token);
      PageOf(pages, time) < |pages| && (Lists(pages, id, time) <==> Visible(tables[PageOf(pages, time)], id, time, status))
  {
    AscendingMeansNonDescending(tables);
    ListedWereVisible(tables, sizes, status, token, id, time);
    assert Ascending(tables[PageOf(Pages(tables, sizes, status, token), time)]);
  }

  lemma AscendingMeansNonDescending(tables: seq<seq<Goal>>)
    requires AllAscending(tables)
    ensures AllNonDescending(tables)
  {
    forall i | 0 <= i < |tables| ensures NonDescending(tables[i]) {
      assert Ascending(tables[i]);
    }
  }

  // ---- goals that are there throughout -----------------------------------------------------------------

  predicate VisibleThroughout(tables: seq<seq<Goal>>, id: string, time: Time, status: Option<TaskState>) {
    forall m :: 0 <= m < |tables| ==> Visible(tables[m], id, time, status)
  }

  /** Some page ended on a row of this time. */
  predicate CutAt(pages: seq<Page>, time: Time) {
    exists i :: 0 <= i < |pages| && pages[i].nextPageToken == Some(time)
  }

  /** A goal that is there at every page and passes the filter at every page is listed, wherever others are inserted,
      unless some page ended on a row of the very same creation time. */
  lemma MissedOnlyAtTies(tables: seq<seq<Goal>>, sizes: seq<int>, status: Option<TaskState>, token: Option<Time>,
                         id: string, time: Time)
    requires |sizes| == |tables| && AllNonDescending(tables) && Beyond(time, token)
    requires VisibleThroughout(tables, id, time, status) && Finished(Pages(tables, sizes, status, token))
    ensures var pages := Pages(tables, sizes, status, token); Lists(pages, id, time) || CutAt(pages, time)
  {
    var pages := Pages(tables, sizes, status, token);
    ListedWereVisible(tables, sizes, status, token, id, time);
    assert pages[PageOf(pages, time)].nextPageToken == Some(time) ==> CutAt(pages, time);
  }

  /** So with distinct creation times such a goal is never missed. */
  lemma NeverMissed(tables: seq<seq<Goal>>, sizes: seq<int>, status: Option<TaskState>, token: Option<Time>,
                    id: string, time: Time)
    requires |sizes| == |tables| && AllAscending(tables) && Beyond(time, token)
    requires VisibleThroughout(tables, id, time, status) && Finished(Pages(tables, sizes, status, token))
    ensures Lists(Pages(tables, sizes, status, token), id, time)
  {
    ListedIffVisibleAtItsPage(tables, sizes, status, token, id, time);
  }

  // ---- goals that appear while the session is under way ------------------------------------------------

  /** The goal appears between two pages, for good, with a status that passes the filter: absent up to the page numbered
      `m`, visible from the next page on. */
  predicate AppearsAfter(tables: seq<seq<Goal>>, m: nat, id: string, time: Time, status: Option<TaskState>) {
    && (forall n :: 0 <= n < |tables| && n <= m ==> !Visible(tables[n], id, time, status))
    && (forall n :: m < n < |tables| ==> Visible(tables[n], id, time, status))
  }

  /** A time is beyond the token of a page if and only if a later page covers it. */
  lemma AheadIffLaterPage(tables: seq<seq<Goal>>, sizes: seq<int>, status: Option<TaskState>, token: Option<Time>,
                          m: nat, time: Time)
    requires |sizes| == |tables| && AllNonDescending(tables) && Beyond(time, token)
    requires Finished(Pages(tables, sizes, status, token)) && m < |Pages(tables, sizes, status, token)| - 1
    ensures var pages := Pages(tables, sizes, status, token);
      Beyond(time, pages[m].nextPageToken) <==> PageOf(pages, time) > m
  {
    var pages := Pages(tables, sizes, status, token);
    TokensGoUp(tables, sizes, status, token, m);
    PageOfIsFirst(pages, time);
    if PageOf(pages, time) <= m {
      TimesAreCoveredOnce(tables, sizes, status, token, time, PageOf(pages, time), m + 1);
    }
  }

  /** With distinct creation times, a goal that appears between two pages is listed if and only if its creation time
      is beyond the token that was handed out before it appeared. */
  lemma ListedIffAheadOfTheToken(tables: seq<seq<Goal>>, sizes: seq<int>, status: Option<TaskState>,
                                 token: Option<Time>, m: nat, id: string, time: Time)
    requires |sizes| == |tables| && AllAscending(tables) && Beyond(time, token)
    requires Finished(Pages(tables, sizes, status, token)) && m < |Pages(tables, sizes, status, token)| - 1
    requires AppearsAfter(tables, m, id, time, status)
    ensures var pages := Pages(tables, sizes, status, token);
      Lists(pages, id, time) <==> Beyond(time, pages[m].nextPageToken)
  {
    var pages := Pages(tables, sizes, status, token);
    ListedIffVisibleAtItsPage(tables, sizes, status, token, id, time);
    assert Visible(tables[PageOf(pages, time)], id, time, status) <==> PageOf(pages, time) > m;
    AscendingMeansNonDescending(tables);
    AheadIffLaterPage(tables, sizes, status, token, m, time);
  }
}
