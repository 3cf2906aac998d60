/** The context-effect table (daemon/extensions/context_effect.go): rows that are inserted with the next sequence
    number of their extension instance and later marked disposed, never deleted. Here the table is proved to be
    one stack per instance. */
module ContextEffects {
  import opened Wrappers

  type Id = nat

  /** An extension instance: the primary key of the extension table. */
  datatype Key = Key(id: string, version: string)

  /** One row of extension_context_effect. */
  datatype ContextEffect = ContextEffect(
    id: Id, owner: Key, sequence: nat, kind: string, ref: string, disposed: bool)

  /** The rows in the order they were inserted. */
  type Table = seq<ContextEffect>

  datatype Error = NotFound | AlreadyDisposed | NotMostRecentlyRegistered

  // ---- the queries -------------------------------------------------------------------------------------

  /** MAX(sequence) over all rows of the instance, with NULL read as 0. */
  function MaxSequence(t: Table, owner: Key): (n: nat)
    ensures forall i :: 0 <= i < |t| && t[i].owner == owner ==> t[i].sequence <= n
  {
    if t == [] then 0
    else
      var (rest, last) := (MaxSequence(t[..|t| - 1], owner), t[|t| - 1]);
      assert forall i :: 0 <= i < |t| - 1 ==> t[i] == t[..|t| - 1][i];
      if last.owner == owner && last.sequence > rest then last.sequence else rest
  }

  /** The rows of the instance that are not disposed, in insertion order. */
  function Stack(t: Table, owner: Key): seq<ContextEffect> {
    if t == [] then []
    else
      var last := t[|t| - 1];
      Stack(t[..|t| - 1], owner) + if last.owner == owner && !last.disposed then [last] else []
  }

  /** MAX(sequence) over the rows of the instance that are not disposed. */
  function MaxOutstanding(t: Table, owner: Key): Option<nat> {
    if t == [] then None
    else
      var (rest, last) := (MaxOutstanding(t[..|t| - 1], owner), t[|t| - 1]);
      if last.owner == owner && !last.disposed && (rest.None? || last.sequence > rest.value) then Some(last.sequence)
      else rest
  }

  /** The position of the row with this id and owner. */
  function Find(t: Table, owner: Key, id: Id): (at: Option<nat>)
    ensures at.Some? ==> at.value < |t| && t[at.value].id == id && t[at.value].owner == owner
    ensures at.None? ==> forall i :: 0 <= i < |t| ==> t[i].id != id || t[i].owner != owner
  {
    if t == [] then None
    else
      var last := |t| - 1;
      if t[last].id == id && t[last].owner == owner then Some(last)
      else
        assert forall i :: 0 <= i < last ==> t[i] == t[..last][i];
        Find(t[..last], owner, id)
  }

  // ---- the two writes ----------------------------------------------------------------------------------

  function NextRow(t: Table, owner: Key, id: Id, kind: string, ref: string): ContextEffect {
    ContextEffect(id, owner, MaxSequence(t, owner) + 1, kind, ref, false)
  }

  function Register(t: Table, owner: Key, id: Id, kind: string, ref: string): Table {
    t + [NextRow(t, owner, id, kind, ref)]
  }

  function Dispose(t: Table, owner: Key, id: Id): (Table, Result<(), Error>) {
    match Find(t, owner, id)
    case None => (t, Failure(NotFound))
    case Some(i) =>
      if t[i].disposed then (t, Failure(AlreadyDisposed))
      else if MaxOutstanding(t, owner) != Some(t[i].sequence) then (t, Failure(NotMostRecentlyRegistered))
      else (t[i := t[i].(disposed := true)], Success(()))
  }

  // ---- the invariant: an id names one row, and sequences grow along each instance's rows ---------------

  ghost predicate Ordered(t: Table) {
    && (forall i, j :: 0 <= i < j < |t| ==> t[i].id != t[j].id)
    && (forall i, j :: 0 <= i < j < |t| && t[i].owner == t[j].owner ==> t[i].sequence < t[j].sequence)
  }

  predicate IsNew(t: Table, id: Id) {
    forall i :: 0 <= i < |t| ==> t[i].id != id
  }

  lemma RegisterKeepsOrder(t: Table, owner: Key, id: Id, kind: string, ref: string)
    requires Ordered(t) && IsNew(t, id)
    ensures Ordered(Register(t, owner, id, kind, ref))
  {
  }

  lemma DisposeKeepsOrder(t: Table, owner: Key, id: Id)
    requires Ordered(t)
    ensures Ordered(Dispose(t, owner, id).0)
  {
  }

  // ---- the stack ---------------------------------------------------------------------------------------

  /** Registering pushes on the instance's stack and leaves every other stack alone; the new sequence is above
      every sequence the instance ever had, disposed ones included. */
  lemma RegisterPushes(t: Table, owner: Key, id: Id, kind: string, ref: string, other: Key)
    ensures var (after, row) := (Register(t, owner, id, kind, ref), NextRow(t, owner, id, kind, ref));
      && Stack(after, other) == Stack(t, other) + (if other == owner then [row] else [])
      && forall i :: 0 <= i < |t| && t[i].owner == owner ==> t[i].sequence < row.sequence
  {
    assert Register(t, owner, id, kind, ref)[..|t|] == t;
  }

  /** The stack holds exactly the instance's rows that are not disposed, in ascending sequence: the answer of
      ListOutstandingContextEffects. */
  lemma {:induction false} StackIsTheOutstandingRows(t: Table, owner: Key)
    requires Ordered(t)
    ensures forall e :: e in Stack(t, owner) <==> e in t && e.owner == owner && !e.disposed
    ensures forall i, j :: 0 <= i < j < |Stack(t, owner)| ==> Stack(t, owner)[i].sequence < Stack(t, owner)[j].sequence
  {
    if t != [] {
      var (rest, last) := (t[..|t| - 1], t[|t| - 1]);
      assert t == rest + [last];
      StackIsTheOutstandingRows(rest, owner);
      forall i | 0 <= i < |Stack(rest, owner)| && last.owner == owner
        ensures Stack(rest, owner)[i].sequence < last.sequence
      {
        assert Stack(rest, owner)[i] in rest;
      }
    }
  }

  /** The last row's sequence is above that of the stack it comes on top of. */
  lemma TopIsOlder(t: Table, owner: Key)
    requires t != [] && Ordered(t)
    ensures var (s, last) := (Stack(t[..|t| - 1], owner), t[|t| - 1]);
      s != [] && last.owner == owner ==> s[|s| - 1].sequence < last.sequence
  {
    var rest := t[..|t| - 1];
    StackIsTheOutstandingRows(rest, owner);
    var s := Stack(rest, owner);
    if s != [] && t[|t| - 1].owner == owner {
      assert s[|s| - 1] in rest;
    }
  }

  /** MAX(sequence) over the outstanding rows is the sequence on top of the stack. */
  lemma {:induction false} MaxOutstandingIsTop(t: Table, owner: Key)
    requires Ordered(t)
    ensures var s := Stack(t, owner);
      MaxOutstanding(t, owner) == if s == [] then None else Some(s[|s| - 1].sequence)
  {
    if t != [] {
      MaxOutstandingIsTop(t[..|t| - 1], owner);
      TopIsOlder(t, owner);
    }
  }

  /** Marking a row takes it out of its owner's stack, if it is the last one in there, and changes no other
      stack. */
  lemma {:induction false} MarkingPops(t: Table, at: nat, other: Key)
    requires at < |t| && !t[at].disposed
    requires forall i :: at < i < |t| && t[i].owner == t[at].owner ==> t[i].disposed
    ensures var (before, after) := (Stack(t, other), Stack(t[at := t[at].(disposed := true)], other));
      if other != t[at].owner then after == before
      else before != [] && before[|before| - 1] == t[at] && after == before[..|before| - 1]
    decreases |t|
  {
    var last := |t| - 1;
    var marked := t[at := t[at].(disposed := true)];
    if at == last {
      assert marked[..last] == t[..last];
    } else {
      MarkingPops(t[..last], at, other);
      assert marked[..last] == t[..last][at := t[at].(disposed := true)];
    }
  }

  /** The row that Dispose lets through is the last outstanding one of its instance. */
  lemma MaxIsLast(t: Table, owner: Key, at: nat)
    requires Ordered(t) && at < |t| && t[at].owner == owner && !t[at].disposed
    requires MaxOutstanding(t, owner) == Some(t[at].sequence)
    ensures forall i :: at < i < |t| && t[i].owner == owner ==> t[i].disposed
  {
    var s := Stack(t, owner);
    MaxOutstandingIsTop(t, owner);
    StackIsTheOutstandingRows(t, owner);
    forall i | 0 <= i < |t| && t[i].owner == owner && !t[i].disposed ensures i <= at {
      assert t[i] in s;
      var k :| 0 <= k < |s| && s[k] == t[i];
      assert s[k].sequence <= s[|s| - 1].sequence;
    }
  }

  /** The top of a stack is found, and is let through. */
  lemma TopIsDisposed(t: Table, owner: Key)
    requires Ordered(t) && Stack(t, owner) != []
    ensures Dispose(t, owner, Stack(t, owner)[|Stack(t, owner)| - 1].id).1.Success?
  {
    var s := Stack(t, owner);
    MaxOutstandingIsTop(t, owner);
    StackIsTheOutstandingRows(t, owner);
    var top := s[|s| - 1];
    assert top in s;
    var i :| 0 <= i < |t| && t[i] == top;
    assert Find(t, owner, top.id) == Some(i);
  }

  /** What a dispose that is let through does. */
  lemma SuccessPops(t: Table, owner: Key, id: Id, other: Key)
    requires Ordered(t) && Dispose(t, owner, id).1.Success?
    ensures var (after, s) := (Dispose(t, owner, id).0, Stack(t, owner));
      && s != [] && s[|s| - 1].id == id
      && Stack(after, other) == if other == owner then s[..|s| - 1] else Stack(t, other)
  {
    var at := Find(t, owner, id).value;
    MaxIsLast(t, owner, at);
    MarkingPops(t, at, owner);
    MarkingPops(t, at, other);
  }

  lemma SuccessIffTop(t: Table, owner: Key, id: Id)
    requires Ordered(t)
    ensures var s := Stack(t, owner); Dispose(t, owner, id).1.Success? <==> s != [] && s[|s| - 1].id == id
  {
    if Dispose(t, owner, id).1.Success? {
      SuccessPops(t, owner, id, owner);
    } else if Stack(t, owner) != [] {
      TopIsDisposed(t, owner);
    }
  }

  /** A dispose succeeds if and only if it names the top of the instance's stack; then it pops exactly that row
      and leaves every other stack alone, and otherwise it changes nothing. */
  lemma DisposePopsTheTop(t: Table, owner: Key, id: Id, other: Key)
    requires Ordered(t)
    ensures var s := Stack(t, owner); Dispose(t, owner, id).1.Success? <==> s != [] && s[|s| - 1].id == id
    ensures Dispose(t, owner, id).1.Failure? ==> Dispose(t, owner, id).0 == t
    ensures Dispose(t, owner, id).1.Success? ==>
      var (after, s) := (Dispose(t, owner, id).0, Stack(t, owner));
      Stack(after, other) == if other == owner then s[..|s| - 1] else Stack(t, other)
  {
    SuccessIffTop(t, owner, id);
    if Dispose(t, owner, id).1.Success? {
      SuccessPops(t, owner, id, other);
    }
  }

  /** How a table can grow: rows stay where they are, a disposed row stays disposed, nothing else of a row ever
      changes. */
  ghost predicate Grows(before: Table, after: Table) {
    && |before| <= |after|
    && forall i :: 0 <= i < |before| ==>
         after[i] == before[i] || after[i] == before[i].(disposed := true)
  }
}
