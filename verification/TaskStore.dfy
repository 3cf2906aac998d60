/** The task adapter over the goal table (daemon/a2a/a2a.go): state translation, creation, cancellation and paged
    listing. */
module TaskStore {
  import opened Wrappers

  /** created_at, in milliseconds; Timestamps.LexIsChronological is why comparing the strings is comparing these. */
  type Time = int

  datatype TaskState =
    | Submitted | Working | Completed | Failed | Canceled
    | Rejected | InputRequired | AuthRequired
    | Unknown(text: string)

  /** One row of goal. */
  datatype Goal = Goal(id: string, text: string, status: string, message: string, createdAt: Time)

  datatype Task = Task(id: string, state: TaskState, message: string, timestamp: Time)

  /** The filter; "" and None are "no filter on this dimension". */
  datatype Filter = Filter(contextId: string, status: Option<TaskState>, pageSize: int, pageToken: Option<Time>)

  datatype Page = Page(tasks: seq<Task>, nextPageToken: Option<Time>, totalSize: nat)

  datatype Error = NotFound | NotCancelable | NoTextContent

  const DEFAULT_PAGE_SIZE := 50

  // ---- states ------------------------------------------------------------------------------------------

  function GoalStateToTaskState(status: string): TaskState {
    match status
    case "open" => Submitted
    case "active" => Working
    case "done" => Completed
    case "failed" => Failed
    case "canceled" => Canceled
    case _ => Submitted
  }

  function TaskStateToGoalState(s: TaskState): string {
    match s
    case Submitted => "open"
    case Working => "active"
    case Completed => "done"
    case Failed => "failed"
    case Canceled => "canceled"
    case _ => "open"
  }

  predicate IsTerminal(status: string) {
    status == "done" || status == "failed" || status == "canceled"
  }

  /** What the CHECK constraint on goal.status allows. */
  predicate IsGoalStatus(status: string) {
    status == "open" || status == "active" || IsTerminal(status)
  }

  /** What the eight states of the protocol are called in the goal table and back: five have a status of their own, and
      everything else is open, or submitted. */
  lemma StatesAreCalled(s: TaskState, status: string)
    ensures TaskStateToGoalState(Submitted) == "open" && TaskStateToGoalState(Working) == "active"
    ensures TaskStateToGoalState(Completed) == "done" && TaskStateToGoalState(Failed) == "failed"
    ensures TaskStateToGoalState(Canceled) == "canceled"
    ensures s !in {Submitted, Working, Completed, Failed, Canceled} ==> TaskStateToGoalState(s) == "open"
    ensures GoalStateToTaskState("open") == Submitted && GoalStateToTaskState("active") == Working
    ensures GoalStateToTaskState("done") == Completed && GoalStateToTaskState("failed") == Failed
    ensures GoalStateToTaskState("canceled") == Canceled
    ensures status !in ["open", "active", "done", "failed", "canceled"] ==> GoalStateToTaskState(status) == Submitted
  {
  }

  // ---- messages ----------------------------------------------------------------------------------------

  /** The texts of a message's parts, "" for a part without one: those that are not empty, a line break between any
      two. */
  function TextContent(texts: seq<string>): string {
    if texts == [] then ""
    else Lines(texts[0], TextContent(texts[1..]))
  }

  /** One text, then another on the next line; nothing is no line. */
  function Lines(text: string, more: string): string {
    if text == "" then more else if more == "" then text else text + "\n" + more
  }

  /** Part by part from the front: a text goes on a line of its own under those before it. */
  lemma {:induction false} OneTextMore(texts: seq<string>, more: string)
    ensures TextContent([]) == ""
    ensures TextContent(texts + [more]) ==
      var text := TextContent(texts);
      if more == "" then text else if text == "" then more else text + "\n" + more
  {
    if texts == [] {
      assert [] + [more] == [more] && [more][1..] == [];
    } else {
      assert (texts + [more])[1..] == texts[1..] + [more];
      OneTextMore(texts[1..], more);
      OneMoreLine(texts[0], TextContent(texts[1..]), more);
    }
  }

  /** There is nothing to make a goal of exactly when no part has any text. */
  lemma {:induction false} EmptyIffNoText(texts: seq<string>)
    ensures TextContent(texts) == "" <==> forall i :: 0 <= i < |texts| ==> texts[i] == ""
  {
    if texts != [] {
      EmptyIffNoText(texts[1..]);
      assert TextContent(texts) == "" <==> texts[0] == "" && TextContent(texts[1..]) == "";
      assert forall i :: 0 < i < |texts| ==> texts[i] == texts[1..][i - 1];
    }
  }

  lemma OneMoreLine(text: string, next: string, rest: string)
    ensures Lines(text, Lines(next, rest)) == Lines(Lines(text, next), rest)
  {
    if text != "" && next != "" && rest != "" {
      assert text + "\n" + (next + "\n" + rest) == text + "\n" + next + "\n" + rest;
    }
  }

  // ---- listing -----------------------------------------------------------------------------------------

  function TaskFromGoal(g: Goal): Task {
    Task(g.id, GoalStateToTaskState(g.status), g.message, g.createdAt)
  }

  function TasksFrom(rows: seq<Goal>): (tasks: seq<Task>)
    ensures |tasks| == |rows| && forall i :: 0 <= i < |rows| ==> tasks[i] == TaskFromGoal(rows[i])
  {
    seq(|rows|, i requires 0 <= i < |rows| => TaskFromGoal(rows[i]))
  }

  function EffectiveSize(pageSize: int): (n: nat)
    ensures 1 <= n <= 100
  {
    if pageSize <= 0 || pageSize > 100 then DEFAULT_PAGE_SIZE else pageSize
  }

  predicate IsAfter(g: Goal, token: Option<Time>) {
    token.None? || g.createdAt > token.value
  }

  predicate HasStatus(g: Goal, status: Option<TaskState>) {
    status.None? || g.status == TaskStateToGoalState(status.value)
  }

  /** The WHERE clause over a table that is read in the order of created_at. */
  function Select(t: seq<Goal>, token: Option<Time>, status: Option<TaskState>): (rows: seq<Goal>)
    ensures |rows| <= |t|
  {
    if t == [] then []
    else
      (if IsAfter(t[0], token) && HasStatus(t[0], status) then [t[0]] else []) + Select(t[1..], token, status)
  }

  lemma SelectOneMore(t: seq<Goal>, i: nat, rows: seq<Goal>, token: Option<Time>, status: Option<TaskState>)
    requires i < |t|
    ensures rows + Select(t[i..], token, status) ==
      (if IsAfter(t[i], token) && HasStatus(t[i], status) then rows + [t[i]] else rows) + Select(t[i + 1..], token, status)
  {
    var rest := Select(t[i + 1..], token, status);
    assert t[i..][0] == t[i] && t[i..][1..] == t[i + 1..];
    assert rows + ([t[i]] + rest) == (rows + [t[i]]) + rest && [] + rest == rest;
  }

  /** LIMIT n. */
  function Limit(rows: seq<Goal>, n: nat): seq<Goal> {
    if |rows| <= n then rows else rows[..n]
  }

  function Find(t: seq<Goal>, id: string): Option<Goal> {
    if t == [] then None else if t[0].id == id then Some(t[0]) else Find(t[1..], id)
  }

  /** One page out of the matching rows: all of them, or the first `n` and the last one's time as token. */
  function Cut(rows: seq<Goal>, n: nat): (seq<Task>, Option<Time>)
    requires n >= 1
  {
    if |rows| <= n then (TasksFrom(rows), None) else (TasksFrom(rows[..n]), Some(rows[n - 1].createdAt))
  }

  /** Reading one row more than the page holds is enough to cut it. */
  lemma CutOfLimit(rows: seq<Goal>, n: nat)
    requires n >= 1
    ensures Cut(Limit(rows, n + 1), n) == Cut(rows, n)
  {
    if |rows| > n + 1 {
      assert rows[..n + 1][..n] == rows[..n];
    }
  }

  /** What one call to ListTasks answers. */
  function Listing(t: seq<Goal>, f: Filter): Page {
    if f.contextId != "" then
      match Find(t, f.contextId)
      case None => Page([], None, |t|)
      case Some(g) =>
        var task := TaskFromGoal(g);
        Page(if f.status.Some? && task.state != f.status.value then [] else [task], None, |t|)
    else
      var (tasks, next) := Cut(Select(t, f.pageToken, f.status), EffectiveSize(f.pageSize));
      Page(tasks, next, |t|)
  }

  /** A page holds as many tasks as were asked for, from 1 to 100, and fifty for any other number. */
  lemma PagesHoldUpToAHundred(pageSize: int)
    ensures EffectiveSize(pageSize) == if 1 <= pageSize <= 100 then pageSize else 50
  {
  }

  /** The rows a page is cut from are those created after the token whose status is the filter's, in the order of the
      table. */
  lemma {:induction false} SelectionIsTheMatching(t: seq<Goal>, token: Option<Time>, status: Option<TaskState>, g: Goal)
    ensures g in Select(t, token, status) <==>
      && g in t && (token.Some? ==> g.createdAt > token.value)
      && (status.Some? ==> g.status == TaskStateToGoalState(status.value))
    decreases |t|
  {
    if t != [] {
      SelectionIsTheMatching(t[1..], token, status, g);
      assert t == [t[0]] + t[1..];
    }
  }

  lemma {:induction false} SelectionRepeatsNothing(t: seq<Goal>, token: Option<Time>, status: Option<TaskState>)
    ensures multiset(Select(t, token, status)) <= multiset(t)
    decreases |t|
  {
    if t != [] {
      SelectionRepeatsNothing(t[1..], token, status);
      var rest := Select(t[1..], token, status);
      assert multiset(t) == multiset{t[0]} + multiset(t[1..]) by {
        assert t == [t[0]] + t[1..];
      }
      assert Select(t, token, status) == rest || Select(t, token, status) == [t[0]] + rest;
    }
  }

  /** A listing is cut from the front of the matching rows: all of them and no token if they fit on the page, otherwise as
      many as it holds and the creation time of the last of these. Every listing counts all goals there are. */
  lemma PagesAreCutFromTheFront(t: seq<Goal>, f: Filter)
    ensures Listing(t, f).totalSize == |t|
    ensures f.contextId == "" ==>
      var rows := Select(t, f.pageToken, f.status);
      var n := if 1 <= f.pageSize <= 100 then f.pageSize else 50;
      var k := if |rows| <= n then |rows| else n;
      && |Listing(t, f).tasks| == k
      && (forall i :: 0 <= i < k ==>
            Listing(t, f).tasks[i] ==
            Task(rows[i].id, GoalStateToTaskState(rows[i].status), rows[i].message, rows[i].createdAt))
      && Listing(t, f).nextPageToken == if |rows| <= n then None else Some(rows[n - 1].createdAt)
  {
    if f.contextId == "" {
      var rows := Select(t, f.pageToken, f.status);
      PagesHoldUpToAHundred(f.pageSize);
      var (tasks, next) := Cut(rows, EffectiveSize(f.pageSize));
      assert Listing(t, f) == Page(tasks, next, |t|);
    }
  }

  /** A listing for one context is that goal alone, if it is there and in the state asked for. */
  lemma ContextListsItsGoal(t: seq<Goal>, f: Filter)
    requires f.contextId != ""
    ensures Listing(t, f).nextPageToken == None
    ensures match Find(t, f.contextId)
      case Some(g) =>
        g.id == f.contextId && g in t
        && Listing(t, f).tasks ==
           if f.status == None || f.status == Some(GoalStateToTaskState(g.status)) then [TaskFromGoal(g)] else []
      case None => Listing(t, f).tasks == [] && forall i :: 0 <= i < |t| ==> t[i].id != f.contextId
  {
    FindFinds(t, f.contextId);
  }

  lemma {:induction false} FindFinds(t: seq<Goal>, id: string)
    ensures match Find(t, id)
      case Some(g) => g.id == id && g in t
      case None => forall i :: 0 <= i < |t| ==> t[i].id != id
    decreases |t|
  {
    if t != [] && t[0].id != id {
      FindFinds(t[1..], id);
      assert forall i :: 0 < i < |t| ==> t[i] == t[1..][i - 1];
    }
  }

  // ---- how the table changes ---------------------------------------------------------------------------

  /** The table is read in the order of created_at; rows of one time come in one fixed order. */
  predicate NonDescending(t: seq<Goal>) {
    forall i, j :: 0 <= i < j < |t| ==> t[i].createdAt <= t[j].createdAt
  }

  /** The primary key. */
  predicate DistinctIds(t: seq<Goal>) {
    forall i, j :: 0 <= i < j < |t| ==> t[i].id != t[j].id
  }

  predicate IsNew(t: seq<Goal>, id: string) {
    forall i :: 0 <= i < |t| ==> t[i].id != id
  }

  /** A goal is inserted, or its status is written, by this adapter or by whoever works on it. */
  datatype Change =
    | Create(id: string, text: string, now: Time)
    | SetStatus(id: string, status: string, message: string)

  /** Where a row of this time is read: after all that are not later. */
  function Position(t: seq<Goal>, time: Time): (n: nat)
    ensures n <= |t|
  {
    if t == [] || t[0].createdAt > time then 0 else 1 + Position(t[1..], time)
  }

  function WithStatus(g: Goal, id: string, status: string, message: string): Goal {
    if g.id == id then g.(status := status, message := message) else g
  }

  function Apply(t: seq<Goal>, c: Change): seq<Goal> {
    match c
    case Create(id, text, now) =>
      var n := Position(t, now);
      t[..n] + [Goal(id, text, "open", "", now)] + t[n..]
    case SetStatus(id, status, message) =>
      seq(|t|, i requires 0 <= i < |t| => WithStatus(t[i], id, status, message))
  }

  /** A creation adds one open goal with its text and no message, and leaves every other row as it is. */
  lemma CreateAddsOneOpenGoal(t: seq<Goal>, id: string, text: string, now: Time)
    ensures multiset(Apply(t, Create(id, text, now))) == multiset(t) + multiset{Goal(id, text, "open", "", now)}
  {
    var n := Position(t, now);
    assert t == t[..n] + t[n..];
  }

  /** A position splits the table into what is not later and what is. */
  lemma {:induction false} PositionSplits(t: seq<Goal>, time: Time)
    requires NonDescending(t)
    ensures forall i :: 0 <= i < Position(t, time) ==> t[i].createdAt <= time
    ensures forall i :: Position(t, time) <= i < |t| ==> t[i].createdAt > time
  {
    if t != [] && t[0].createdAt <= time {
      PositionSplits(t[1..], time);
      forall i | 0 < i < |t| ensures t[i] == t[1..][i - 1] {
      }
    }
  }

  /** Every change keeps the table in order and its ids distinct, whatever the clock says. */
  lemma ApplyKeepsOrder(t: seq<Goal>, c: Change)
    requires NonDescending(t) && DistinctIds(t) && (c.Create? ==> IsNew(t, c.id))
    ensures NonDescending(Apply(t, c)) && DistinctIds(Apply(t, c))
  {
    if c.Create? {
      PositionSplits(t, c.now);
      InsertKeepsOrder(t, Position(t, c.now), Goal(c.id, c.text, "open", "", c.now));
    }
  }

  lemma InsertKeepsOrder(t: seq<Goal>, n: nat, g: Goal)
    requires NonDescending(t) && DistinctIds(t) && IsNew(t, g.id) && n <= |t|
    requires forall i :: 0 <= i < n ==> t[i].createdAt <= g.createdAt
    requires forall i :: n <= i < |t| ==> t[i].createdAt > g.createdAt
    ensures NonDescending(t[..n] + [g] + t[n..]) && DistinctIds(t[..n] + [g] + t[n..])
  {
    var u := t[..n] + [g] + t[n..];
    assert forall i :: 0 <= i < |u| ==> u[i] == if i < n then t[i] else if i == n then g else t[i - 1];
  }

  // ---- the store as an object --------------------------------------------------------------------------

  /** The goal table, kept in the order in which ORDER BY created_at reads it. */
  class Store {
    var goals: seq<Goal>

    ghost predicate Valid()
      reads this
    {
      NonDescending(goals) && DistinctIds(goals)
    }

    constructor ()
      ensures Valid() && goals == []
    {
      goals := [];
    }

    method GetTask(id: string) returns (r: Result<Task, Error>)
      ensures r == match Find(goals, id) case None => Failure(NotFound) case Some(g) => Success(TaskFromGoal(g))
    {
      for i := 0 to |goals|
        invariant Find(goals, id) == Find(goals[i..], id)
      {
        assert goals[i..][1..] == goals[i + 1..];
        if goals[i].id == id {
          return Success(TaskFromGoal(goals[i]));
        }
      }
      return Failure(NotFound);
    }

    /** The rows the database returns: it stops reading at the limit. */
    method Query(token: Option<Time>, status: Option<TaskState>, limit: nat) returns (rows: seq<Goal>)
      ensures rows == Limit(Select(goals, token, status), limit)
    {
      rows := [];
      var i := 0;
      while i < |goals| && |rows| < limit
        invariant i <= |goals| && |rows| <= limit
        invariant rows + Select(goals[i..], token, status) == Select(goals, token, status)
      {
        SelectOneMore(goals, i, rows, token, status);
        if IsAfter(goals[i], token) && HasStatus(goals[i], status) {
          rows := rows + [goals[i]];
        }
        i := i + 1;
      }
      assert i == |goals| ==> goals[i..] == [];
    }

    /** Tasks and times are collected row by row, then cut back to the page. */
    method Assemble(rows: seq<Goal>, pageSize: nat) returns (tasks: seq<Task>, next: Option<Time>)
      requires pageSize >= 1
      ensures (tasks, next) == Cut(rows, pageSize)
    {
      tasks, next := [], None;
      var createdAts := [];
      for i := 0 to |rows|
        invariant |tasks| == |createdAts| == i
        invariant forall j :: 0 <= j < i ==> tasks[j] == TaskFromGoal(rows[j]) && createdAts[j] == rows[j].createdAt
      {
        tasks := tasks + [TaskFromGoal(rows[i])];
        createdAts := createdAts + [rows[i].createdAt];
      }
      if |tasks| > pageSize {
        next := Some(createdAts[pageSize - 1]);
        tasks := tasks[..pageSize];
      }
      assert tasks == Cut(rows, pageSize).0;
    }

    method ListTasks(f: Filter) returns (page: Page)
      ensures page == Listing(goals, f)
    {
      var pageSize := f.pageSize;
      if pageSize <= 0 || pageSize > 100 {
        pageSize := DEFAULT_PAGE_SIZE;
      }
      var total := |goals|;
      if f.contextId != "" {
        var task := GetTask(f.contextId);
        if task.Failure? || (f.status.Some? && task.value.state != f.status.value) {
          return Page([], None, total);
        }
        return Page([task.value], None, total);
      }
      var rows := Query(f.pageToken, f.status, pageSize + 1);
      var tasks, next := Assemble(rows, pageSize);
      CutOfLimit(Select(goals, f.pageToken, f.status), pageSize);
      return Page(tasks, next, total);
    }

    /** textContent: collects the parts' texts one by one. */
    method CollectText(texts: seq<string>) returns (r: Result<string, Error>)
      ensures r == if TextContent(texts) == "" then Failure(NoTextContent) else Success(TextContent(texts))
    {
      var text := "";
      assert texts[0..] == texts;
      for i := 0 to |texts|
        invariant Lines(text, TextContent(texts[i..])) == TextContent(texts)
      {
        assert texts[i..][1..] == texts[i + 1..];
        OneMoreLine(text, texts[i], TextContent(texts[i + 1..]));
        if texts[i] != "" {
          if text != "" {
            text := text + "\n";
          }
          text := text + texts[i];
        }
      }
      assert texts[|texts|..] == [];
      return if text == "" then Failure(NoTextContent) else Success(text);
    }

    /** CreateTaskFromMessage, with a freshly drawn id; the row takes its place in the order, which is the end unless
        the clock went back. */
    method CreateTask(texts: seq<string>, id: string, now: Time) returns (r: Result<Task, Error>)
      requires Valid() && IsNew(goals, id)
      modifies this
      ensures Valid()
      ensures r.Success? <==> exists i :: 0 <= i < |texts| && texts[i] != ""
      ensures r == if r.Success? then Success(Task(id, Submitted, "", now)) else Failure(NoTextContent)
      ensures goals == if r.Success? then Apply(old(goals), Create(id, TextContent(texts), now)) else old(goals)
    {
      EmptyIffNoText(texts);
      var text := CollectText(texts);
      if text.Failure? {
        return Failure(text.error);
      }
      var n := |goals|;
      while n > 0 && goals[n - 1].createdAt > now
        invariant 0 <= n <= |goals| && goals == old(goals)
        invariant forall i :: n <= i < |goals| ==> goals[i].createdAt > now
      {
        n := n - 1;
      }
      PositionSplits(goals, now);
      assert n > 0 ==> goals[n - 1].createdAt <= now;
      assert n < |goals| ==> goals[n].createdAt > now;
      assert n == Position(goals, now);
      ApplyKeepsOrder(goals, Create(id, text.value, now));
      var g := Goal(id, text.value, "open", "", now);
      goals := goals[..n] + [g] + goals[n..];
      return Success(TaskFromGoal(g));
    }

    /** CancelTask: a goal that is not finished becomes canceled; nothing else changes. */
    method CancelTask(id: string) returns (r: Result<Task, Error>)
      requires Valid()
      modifies this
      ensures Valid() && |goals| == |old(goals)|
      ensures r == Failure(NotFound) <==> forall i :: 0 <= i < |goals| ==> old(goals)[i].id != id
      ensures r == Failure(NotCancelable) <==>
        exists i :: 0 <= i < |goals| && old(goals)[i].id == id && old(goals)[i].status in ["done", "failed", "canceled"]
      ensures goals == if r.Success? then Apply(old(goals), SetStatus(id, "canceled", "canceled via A2A CancelTask"))
                       else old(goals)
      ensures r.Success? ==>
        exists i :: (&& 0 <= i < |goals| && old(goals)[i].id == id
                     && r.value == Task(id, Canceled, "canceled via A2A CancelTask", old(goals)[i].createdAt))
    {
      for i := 0 to |goals|
        invariant goals == old(goals)
        invariant forall j :: 0 <= j < i ==> goals[j].id != id
      {
        if goals[i].id == id {
          if IsTerminal(goals[i].status) {
            return Failure(NotCancelable);
          }
          ApplyKeepsOrder(goals, SetStatus(id, "canceled", "canceled via A2A CancelTask"));
          goals := goals[i := goals[i].(status := "canceled", message := "canceled via A2A CancelTask")];
          assert goals == Apply(old(goals), SetStatus(id, "canceled", "canceled via A2A CancelTask"));
          return Success(TaskFromGoal(goals[i]));
        }
      }
      return Failure(NotFound);
    }
  }
}
