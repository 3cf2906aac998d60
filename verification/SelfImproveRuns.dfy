/** Runs of the self-improvement engine by concurrent transactions, statement by statement.

    Promote and Rollback take a lock for the whole class before they read anything they act on; Canary,
    Demote, Reject and RecordEval do not. Reads see committed rows. A statement that writes a row, or reads it
    FOR UPDATE, takes that row's lock until its transaction ends; what a transaction wrote becomes visible
    when it commits. Any transaction can stop at any point, and then nothing it wrote was ever there. */
module SelfImproveRuns {
  import opened Wrappers
  import opened SelfImprove

  datatype Kind = Promoting | RollingBack

  /** Where a transaction stands, with what it has read. */
  datatype Pc =
    | Begun(kind: Kind, c: Id, cls: CandidateClass)          // read the class, no lock yet
    | Holding(kind: Kind, c: Id, cls: CandidateClass)        // holds the class lock
    | SawCanary(c: Id, cls: CandidateClass, since: Option<Time>)
    | SawEvidence(c: Id, cls: CandidateClass)
    | SawPrevious(c: Id, cls: CandidateClass, prev: Option<Id>)
    | DemotedPrevious(c: Id, cls: CandidateClass, prev: Option<Id>, now: Time)
    | WrotePromotion(c: Id, cls: CandidateClass, prev: Option<Id>, now: Time)
    | SawDemoted(c: Id, cls: CandidateClass, target: Id)
    | SawNonePromoted(c: Id, cls: CandidateClass, target: Id)
    | MarkedRolledBack(c: Id, cls: CandidateClass, target: Id, now: Time)
    | WroteRestore(c: Id, cls: CandidateClass, target: Id, now: Time)
    | Evaluating(c: Id, during: Status, passed: bool)        // RecordEval, holding the row

  /** A transaction and the rows it has written but not committed. */
  datatype Tx = Tx(pc: Pc, writes: map<Id, Candidate>)

  /** Committed tables, running transactions, and who holds which lock. A class's lock key is its hash, so two
      classes may share one. */
  datatype World = World(
    tables: Tables,
    txs: map<Id, Tx>,
    classLocks: map<int, Id>,
    rowLocks: map<Id, Id>,
    hashes: map<CandidateClass, int>)

  datatype Event =
    | Generate(id: Id, cls: CandidateClass, ref: string, generatedBy: string)
    | Canary(c: Id, now: Time)
    | Demote(c: Id, now: Time)
    | Reject(c: Id)
    | Begin(t: Id, kind: Kind, c: Id)
    | LockClass(t: Id)
    | LockRow(t: Id)
    | CheckEvidence(t: Id, found: bool)
    | ReadPrevious(t: Id, prev: Option<Id>)
    | DemotePrevious(t: Id, now: Time)
    | WriteSelf(t: Id)
    | CheckNonePromoted(t: Id, none: bool)
    | MarkRolledBack(t: Id, now: Time)
    | RestoreTarget(t: Id)
    | BeginEval(t: Id, c: Id, passed: bool)
    | CommitEval(t: Id, now: Time)
    | Commit(t: Id)
    | Abort(t: Id)

  function Key(hashes: map<CandidateClass, int>, cls: CandidateClass): int {
    if cls in hashes then hashes[cls] else 0
  }

  /** The rows a transaction has locked. */
  function HeldRows(pc: Pc): set<Id> {
    match pc
    case Begun(_, _, _) | Holding(_, _, _) => {}
    case DemotedPrevious(c, _, prev, _) => if prev.Some? then {c, prev.value} else {c}
    case WrotePromotion(c, _, prev, _) => if prev.Some? then {c, prev.value} else {c}
    case WroteRestore(c, _, target, _) => {c, target}
    case _ => {pc.c}
  }

  predicate HoldsClass(pc: Pc) {
    !pc.Begun? && !pc.Evaluating?
  }

  /** A single UPDATE waits while another transaction has the row. */
  predicate RowFree(w: World, c: Id) {
    c !in w.rowLocks
  }

  function Move(w: World, t: Id, pc: Pc): World
    requires t in w.txs
  {
    w.(txs := w.txs[t := w.txs[t].(pc := pc)])
  }

  function MoveAndWrite(w: World, t: Id, pc: Pc, c: Id, row: Candidate): World
    requires t in w.txs
  {
    w.(txs := w.txs[t := Tx(pc, w.txs[t].writes[c := row])], rowLocks := w.rowLocks[c := t])
  }

  /** A transaction ends and all its locks go. */
  function Ended(w: World, t: Id): World {
    w.(txs := w.txs - {t},
       classLocks := map k | k in w.classLocks && w.classLocks[k] != t :: w.classLocks[k],
       rowLocks := map r | r in w.rowLocks && w.rowLocks[r] != t :: w.rowLocks[r])
  }

  /** Is this the next step of that transaction, and is nothing in its way? What a query returns is part of
      the event and has to be what the committed rows say. */
  ghost predicate Possible(w: World, ev: Event) {
    match ev
    case Generate(id, cls, ref, _) => id !in w.tables.candidates && !cls.Unrecognised? && ref != ""
    case Canary(c, _) => c in w.tables.candidates && RowFree(w, c) && w.tables.candidates[c].status.Evaluated?
    case Demote(c, _) => c in w.tables.candidates && RowFree(w, c) && w.tables.candidates[c].status.Promoted?
    case Reject(c) =>
      && c in w.tables.candidates && RowFree(w, c)
      && var s := w.tables.candidates[c].status; s.Generated? || s.Evaluated? || s.Canary?
    case Begin(t, _, c) => t !in w.txs && c in w.tables.candidates
    case LockClass(t) => t in w.txs && w.txs[t].pc.Begun? && Key(w.hashes, w.txs[t].pc.cls) !in w.classLocks
    case LockRow(t) =>
      t in w.txs && w.txs[t].pc.Holding? && w.txs[t].pc.c in w.tables.candidates && RowFree(w, w.txs[t].pc.c)
    case CheckEvidence(t, found) =>
      t in w.txs && w.txs[t].pc.SawCanary? && (found <==> HasEvidence(w.tables, w.txs[t].pc.c, w.txs[t].pc.since))
    case ReadPrevious(t, prev) =>
      t in w.txs && w.txs[t].pc.SawEvidence? && IsPrevious(w.tables, w.txs[t].pc.c, w.txs[t].pc.cls, prev)
    case DemotePrevious(t, _) =>
      && t in w.txs && w.txs[t].pc.SawPrevious?
      && (w.txs[t].pc.prev.Some? ==> w.txs[t].pc.prev.value in w.tables.candidates && RowFree(w, w.txs[t].pc.prev.value))
    case WriteSelf(t) => t in w.txs && w.txs[t].pc.DemotedPrevious? && w.txs[t].pc.c in w.tables.candidates
    case CheckNonePromoted(t, none) =>
      t in w.txs && w.txs[t].pc.SawDemoted? && (none <==> forall x: Id :: !IsPromoted(w.tables, x, w.txs[t].pc.cls))
    case MarkRolledBack(t, _) => t in w.txs && w.txs[t].pc.SawNonePromoted? && w.txs[t].pc.c in w.tables.candidates
    case RestoreTarget(t) =>
      && t in w.txs && w.txs[t].pc.MarkedRolledBack?
      && w.txs[t].pc.target in w.tables.candidates && RowFree(w, w.txs[t].pc.target)
    case BeginEval(t, c, _) => t !in w.txs && c in w.tables.candidates && RowFree(w, c)
    case CommitEval(t, _) => t in w.txs && w.txs[t].pc.Evaluating? && w.txs[t].pc.c in w.tables.candidates
    case Commit(t) => t in w.txs && (w.txs[t].pc.WrotePromotion? || w.txs[t].pc.WroteRestore?)
    case Abort(t) => t in w.txs
  }

  /** One statement. An error return is the transaction's Abort; a statement that has to wait is not possible
      yet. */
  ghost function Next(w: World, ev: Event): World {
    if !Possible(w, ev) then w
    else
      match ev
      case Generate(id, cls, ref, generatedBy) => w.(tables := Update(w.tables, id, Fresh(cls, ref, generatedBy)))
      case Canary(c, now) => w.(tables := Update(w.tables, c, AsCanary(w.tables.candidates[c], now)))
      case Demote(c, now) => w.(tables := Update(w.tables, c, AsDemoted(w.tables.candidates[c], now)))
      case Reject(c) => w.(tables := Update(w.tables, c, w.tables.candidates[c].(status := Rejected)))
      case Begin(t, kind, c) => w.(txs := w.txs[t := Tx(Begun(kind, c, w.tables.candidates[c].cls), map[])])
      case LockClass(t) =>
        var pc := w.txs[t].pc;
        Move(w, t, Holding(pc.kind, pc.c, pc.cls)).(classLocks := w.classLocks[Key(w.hashes, pc.cls) := t])
      case LockRow(t) =>
        var pc := w.txs[t].pc;
        var row := w.tables.candidates[pc.c];
        if pc.kind.Promoting? && row.status.Canary? then
          Move(w, t, SawCanary(pc.c, pc.cls, row.canaryAt)).(rowLocks := w.rowLocks[pc.c := t])
        else if pc.kind.RollingBack? && row.status.Demoted? && row.rollbackTarget.Some? then
          Move(w, t, SawDemoted(pc.c, pc.cls, row.rollbackTarget.value)).(rowLocks := w.rowLocks[pc.c := t])
        else Ended(w, t)
      case CheckEvidence(t, found) =>
        if found then Move(w, t, SawEvidence(w.txs[t].pc.c, w.txs[t].pc.cls)) else Ended(w, t)
      case ReadPrevious(t, prev) => Move(w, t, SawPrevious(w.txs[t].pc.c, w.txs[t].pc.cls, prev))
      case DemotePrevious(t, now) =>
        var pc := w.txs[t].pc;
        var next := DemotedPrevious(pc.c, pc.cls, pc.prev, now);
        if pc.prev.None? then Move(w, t, next)
        else MoveAndWrite(w, t, next, pc.prev.value, AsDemoted(w.tables.candidates[pc.prev.value], now))
      case WriteSelf(t) =>
        var pc := w.txs[t].pc;
        MoveAndWrite(w, t, WrotePromotion(pc.c, pc.cls, pc.prev, pc.now), pc.c,
                     AsPromoted(w.tables.candidates[pc.c], pc.now, pc.prev))
      case CheckNonePromoted(t, none) =>
        var pc := w.txs[t].pc;
        if none then Move(w, t, SawNonePromoted(pc.c, pc.cls, pc.target)) else Ended(w, t)
      case MarkRolledBack(t, now) =>
        var pc := w.txs[t].pc;
        MoveAndWrite(w, t, MarkedRolledBack(pc.c, pc.cls, pc.target, now), pc.c,
                     AsRolledBack(w.tables.candidates[pc.c], now))
      case RestoreTarget(t) =>
        var pc := w.txs[t].pc;
        MoveAndWrite(w, t, WroteRestore(pc.c, pc.cls, pc.target, pc.now), pc.target,
                     AsPromoted(w.tables.candidates[pc.target], pc.now, Some(pc.c)))
      case BeginEval(t, c, passed) =>
        w.(txs := w.txs[t := Tx(Evaluating(c, w.tables.candidates[c].status, passed), map[])],
           rowLocks := w.rowLocks[c := t])
      case CommitEval(t, now) =>
        var pc := w.txs[t].pc;
        Ended(w, t).(tables := Tables(
          w.tables.candidates[pc.c := w.tables.candidates[pc.c].(status := AfterEval(pc.during, pc.passed))],
          w.tables.evals + [Eval(pc.c, pc.passed, now, pc.during)]))
      case Commit(t) => Ended(w, t).(tables := w.tables.(candidates := w.tables.candidates + w.txs[t].writes))
      case Abort(t) => Ended(w, t)
  }

  ghost function Run(w: World, events: seq<Event>): World
    decreases |events|
  {
    if events == [] then w else Run(Next(w, events[0]), events[1..])
  }

  function Start(hashes: map<CandidateClass, int>): World {
    World(Tables(map[], []), map[], map[], map[], hashes)
  }

  // ---- the invariant -------------------------------------------------------------------------------

  /** Every lock is held by a running transaction that is where it should be, and the other way round. */
  ghost predicate RowLocksOk(txs: map<Id, Tx>, locks: map<Id, Id>) {
    && (forall r :: r in locks ==> locks[r] in txs && r in HeldRows(txs[locks[r]].pc))
    && (forall t, r :: t in txs && r in HeldRows(txs[t].pc) ==> r in locks && locks[r] == t)
  }

  ghost predicate ClassLocksOk(txs: map<Id, Tx>, locks: map<int, Id>, hashes: map<CandidateClass, int>) {
    && (forall k :: k in locks ==> locks[k] in txs && HoldsClass(txs[locks[k]].pc))
    && (forall t :: t in txs && HoldsClass(txs[t].pc) ==>
          Key(hashes, txs[t].pc.cls) in locks && locks[Key(hashes, txs[t].pc.cls)] == t)
  }

  ghost predicate LocksOk(w: World) {
    RowLocksOk(w.txs, w.rowLocks) && ClassLocksOk(w.txs, w.classLocks, w.hashes)
  }

  /** Whoever is promoted in the class is the one that was read, or nobody is. */
  ghost predicate PreviousOk(t: Tables, c: Id, cls: CandidateClass, prev: Option<Id>) {
    && (forall x: Id :: IsPromoted(t, x, cls) ==> prev == Some(x))
    && (prev.Some? ==> prev.value != c && prev.value in t.candidates && t.candidates[prev.value].cls == cls
                       && OnceLive(t.candidates[prev.value].status))
  }

  function PreviousWrites(t: Tables, prev: Option<Id>, now: Time): map<Id, Candidate>
    requires prev.Some? ==> prev.value in t.candidates
  {
    if prev.Some? then map[prev.value := AsDemoted(t.candidates[prev.value], now)] else map[]
  }

  predicate InClass(t: Tables, c: Id, cls: CandidateClass) {
    c in t.candidates && t.candidates[c].cls == cls
  }

  ghost predicate ReadyToPromote(t: Tables, c: Id, cls: CandidateClass) {
    InClass(t, c, cls) && t.candidates[c].status.Canary? && HasEvidence(t, c, t.candidates[c].canaryAt)
  }

  predicate ReadyToRollBack(t: Tables, c: Id, cls: CandidateClass, target: Id) {
    && InClass(t, c, cls) && t.candidates[c].status.Demoted? && t.candidates[c].rollbackTarget == Some(target)
    && InClass(t, target, cls) && target != c
  }

  /** What a transaction has read still holds, and what it has written is what its operation says. */
  ghost predicate TxOk(t: Tables, tx: Tx) {
    match tx.pc
    case Begun(_, c, cls) => InClass(t, c, cls) && tx.writes == map[]
    case Holding(_, c, cls) => InClass(t, c, cls) && tx.writes == map[]
    case SawCanary(c, cls, since) =>
      InClass(t, c, cls) && t.candidates[c].status.Canary? && t.candidates[c].canaryAt == since && tx.writes == map[]
    case SawEvidence(c, cls) => ReadyToPromote(t, c, cls) && tx.writes == map[]
    case SawPrevious(c, cls, prev) => ReadyToPromote(t, c, cls) && PreviousOk(t, c, cls, prev) && tx.writes == map[]
    case DemotedPrevious(c, cls, prev, now) =>
      ReadyToPromote(t, c, cls) && PreviousOk(t, c, cls, prev) && tx.writes == PreviousWrites(t, prev, now)
    case WrotePromotion(c, cls, prev, now) =>
      && ReadyToPromote(t, c, cls) && PreviousOk(t, c, cls, prev)
      && tx.writes == PreviousWrites(t, prev, now)[c := AsPromoted(t.candidates[c], now, prev)]
    case SawDemoted(c, cls, target) => ReadyToRollBack(t, c, cls, target) && tx.writes == map[]
    case SawNonePromoted(c, cls, target) =>
      ReadyToRollBack(t, c, cls, target) && NonePromoted(t, cls) && tx.writes == map[]
    case MarkedRolledBack(c, cls, target, now) =>
      && ReadyToRollBack(t, c, cls, target) && NonePromoted(t, cls)
      && tx.writes == map[c := AsRolledBack(t.candidates[c], now)]
    case WroteRestore(c, cls, target, now) =>
      && ReadyToRollBack(t, c, cls, target) && NonePromoted(t, cls)
      && tx.writes == map[c := AsRolledBack(t.candidates[c], now),
                          target := AsPromoted(t.candidates[target], now, Some(c))]
    case Evaluating(c, during, _) => c in t.candidates && t.candidates[c].status == during && tx.writes == map[]
  }

  ghost predicate NonePromoted(t: Tables, cls: CandidateClass) {
    forall x: Id :: !IsPromoted(t, x, cls)
  }

  ghost predicate Inv(w: World) {
    && Sound(w.tables)
    && LocksOk(w)
    && (forall t :: t in w.txs ==> TxOk(w.tables, w.txs[t]))
  }

  // ---- what a transaction relies on ------------------------------------------------------------------

  /** What the locks guarantee a waiting transaction about everyone else's commits: history is kept, the rows
      it has locked stay as they are, and while it holds its class nobody else is promoted in it. */
  ghost predicate Undisturbed(a: Tables, b: Tables, pc: Pc) {
    && Extends(a, b)
    && (forall r :: r in HeldRows(pc) && r in a.candidates ==> b.candidates[r] == a.candidates[r])
    && (HoldsClass(pc) ==> forall x: Id :: IsPromoted(b, x, pc.cls) ==> IsPromoted(a, x, pc.cls))
  }

  /** Then everything it has read still holds. */
  lemma ReadsStillHold(a: Tables, b: Tables, tx: Tx)
    requires TxOk(a, tx) && Undisturbed(a, b, tx.pc)
    ensures TxOk(b, tx)
  {
    match tx.pc
    case SawEvidence(c, cls) => EvidenceLasts(a, b, c, a.candidates[c].canaryAt);
    case SawPrevious(c, cls, _) => EvidenceLasts(a, b, c, a.candidates[c].canaryAt);
    case DemotedPrevious(c, cls, _, _) => EvidenceLasts(a, b, c, a.candidates[c].canaryAt);
    case WrotePromotion(c, cls, _, _) => EvidenceLasts(a, b, c, a.candidates[c].canaryAt);
    case _ =>
  }

  /** A statement that commits by itself, while every transaction is undisturbed by it. */
  lemma CommittedAlone(w: World, u: Tables)
    requires LocksOk(w) && (forall t :: t in w.txs ==> TxOk(w.tables, w.txs[t])) && Sound(u)
    requires forall t :: t in w.txs ==> Undisturbed(w.tables, u, w.txs[t].pc)
    ensures Inv(w.(tables := u))
  {
    forall t | t in w.txs ensures TxOk(u, w.txs[t]) { ReadsStillHold(w.tables, u, w.txs[t]); }
  }

  /** One unlocked row changes and nobody becomes promoted: no transaction notices. */
  lemma UnlockedRowDisturbsNobody(w: World, u: Tables, c: Id, t: Id)
    requires LocksOk(w) && RowFree(w, c) && t in w.txs && Extends(w.tables, u)
    requires forall x :: x in u.candidates && x != c ==> x in w.tables.candidates && u.candidates[x] == w.tables.candidates[x]
    requires c in u.candidates && !u.candidates[c].status.Promoted?
    ensures Undisturbed(w.tables, u, w.txs[t].pc)
  {
  }

  lemma SingleStatementKeepsInv(w: World, ev: Event)
    requires Inv(w) && Possible(w, ev) && (ev.Generate? || ev.Canary? || ev.Demote? || ev.Reject?)
    ensures Inv(Next(w, ev))
  {
    var u := Next(w, ev).tables;
    var c := if ev.Generate? then ev.id else ev.c;
    match ev {
      case Generate(id, cls, ref, generatedBy) =>
        GenerateIsSound(w.tables, id, cls, ref, generatedBy);
        if id in w.rowLocks { LockedRowsExist(w, id); }
      case Canary(id, now) => CanaryIsSound(w.tables, id, now);
      case Demote(id, now) => DemoteIsSound(w.tables, id, now);
      case Reject(id) => RejectIsSound(w.tables, id);
    }
    forall t | t in w.txs { UnlockedRowDisturbsNobody(w, u, c, t); }
    CommittedAlone(w, u);
  }

  lemma LockedRowsExist(w: World, r: Id)
    requires Inv(w) && r in w.rowLocks
    ensures r in w.tables.candidates
  {
    assert TxOk(w.tables, w.txs[w.rowLocks[r]]);
  }

  /** A transaction keeps the rows it had and locks some that were free. */
  ghost predicate Acquires(w: World, v: World, t: Id, taken: set<Id>) {
    && t in v.txs && v.txs == w.txs[t := v.txs[t]]
    && HeldRows(v.txs[t].pc) == (if t in w.txs then HeldRows(w.txs[t].pc) else {}) + taken
    && (forall r :: r in taken ==> r !in w.rowLocks)
    && (forall r :: r in v.rowLocks <==> r in w.rowLocks || r in taken)
    && (forall r :: r in v.rowLocks ==> v.rowLocks[r] == if r in taken then t else w.rowLocks[r])
  }

  lemma AcquiringKeepsRowLocks(w: World, v: World, t: Id, taken: set<Id>)
    requires RowLocksOk(w.txs, w.rowLocks) && Acquires(w, v, t, taken)
    ensures RowLocksOk(v.txs, v.rowLocks)
  {
    var locks := v.rowLocks;
    forall r | r in locks ensures locks[r] in v.txs && r in HeldRows(v.txs[locks[r]].pc) {
    }
  }

  /** A transaction goes on without touching the tables. */
  lemma TransactionMoves(w: World, v: World, t: Id, taken: set<Id>)
    requires Inv(w) && v.tables == w.tables && v.hashes == w.hashes
    requires Acquires(w, v, t, taken) && TxOk(v.tables, v.txs[t])
    requires ClassLocksOk(v.txs, v.classLocks, v.hashes)
    ensures Inv(v)
  {
    AcquiringKeepsRowLocks(w, v, t, taken);
  }

  /** The same when the class lock is already settled: the transaction keeps whatever it had. */
  lemma ClassLocksStay(w: World, v: World, t: Id)
    requires ClassLocksOk(w.txs, w.classLocks, w.hashes) && v.classLocks == w.classLocks && v.hashes == w.hashes
    requires t in v.txs && v.txs == w.txs[t := v.txs[t]]
    requires if t in w.txs then HoldsClass(v.txs[t].pc) == HoldsClass(w.txs[t].pc) else !HoldsClass(v.txs[t].pc)
    requires t in w.txs && HoldsClass(v.txs[t].pc) ==> v.txs[t].pc.cls == w.txs[t].pc.cls
    ensures ClassLocksOk(v.txs, v.classLocks, v.hashes)
  {
  }

  /** A transaction that ends leaves the locks of all others, and only those. */
  lemma EndingKeepsLocks(w: World, t: Id)
    requires LocksOk(w) && t in w.txs
    ensures LocksOk(Ended(w, t))
  {
  }

  lemma EndingKeepsInv(w: World, t: Id)
    requires Inv(w) && t in w.txs
    ensures Inv(Ended(w, t))
  {
    EndingKeepsLocks(w, t);
  }

  lemma BeginKeepsInv(w: World, ev: Event)
    requires Inv(w) && Possible(w, ev) && (ev.Begin? || ev.BeginEval?)
    ensures Inv(Next(w, ev))
  {
    var v := Next(w, ev);
    ClassLocksStay(w, v, ev.t);
    TransactionMoves(w, v, ev.t, if ev.Begin? then {} else {ev.c});
  }

  lemma LockClassKeepsInv(w: World, t: Id)
    requires Inv(w) && Possible(w, LockClass(t))
    ensures Inv(Next(w, LockClass(t)))
  {
    var v := Next(w, LockClass(t));
    assert TxOk(w.tables, w.txs[t]);
    TransactionMoves(w, v, t, {});
  }

  lemma LockedRowIsRight(w: World, t: Id)
    requires Possible(w, LockRow(t)) && TxOk(w.tables, w.txs[t]) && TargetOk(w.tables, w.txs[t].pc.c)
    requires t in Next(w, LockRow(t)).txs
    ensures TxOk(w.tables, Next(w, LockRow(t)).txs[t])
    ensures Acquires(w, Next(w, LockRow(t)), t, {w.txs[t].pc.c})
  {
  }

  lemma LockRowKeepsInv(w: World, t: Id)
    requires Inv(w) && Possible(w, LockRow(t)) && t in Next(w, LockRow(t)).txs
    ensures Inv(Next(w, LockRow(t)))
  {
    assert TxOk(w.tables, w.txs[t]);
    LockedRowIsRight(w, t);
    ClassLocksStay(w, Next(w, LockRow(t)), t);
    TransactionMoves(w, Next(w, LockRow(t)), t, {w.txs[t].pc.c});
  }

  lemma ReadKeepsInv(w: World, ev: Event)
    requires Inv(w) && Possible(w, ev) && (ev.CheckEvidence? || ev.ReadPrevious? || ev.CheckNonePromoted?)
    ensures Inv(Next(w, ev))
  {
    var v := Next(w, ev);
    var t := ev.t;
    if t in v.txs {
      assert TxOk(w.tables, w.txs[t]);
      ReadIsRight(w, ev);
      ReadTakesNothing(w, ev);
      ClassLocksStay(w, v, t);
      TransactionMoves(w, v, t, {});
    } else {
      EndingKeepsInv(w, t);
    }
  }

  lemma ReadTakesNothing(w: World, ev: Event)
    requires Possible(w, ev) && (ev.CheckEvidence? || ev.ReadPrevious? || ev.CheckNonePromoted?)
    requires ev.t in Next(w, ev).txs
    ensures Acquires(w, Next(w, ev), ev.t, {})
    ensures HoldsClass(Next(w, ev).txs[ev.t].pc) && HoldsClass(w.txs[ev.t].pc)
    ensures Next(w, ev).txs[ev.t].pc.cls == w.txs[ev.t].pc.cls
  {
  }

  /** What was just read is what the next statement may rely on; the candidate itself is in canary, so it is not
      the promoted one. */
  lemma ReadIsRight(w: World, ev: Event)
    requires OnePromoted(w.tables) && Possible(w, ev) && (ev.CheckEvidence? || ev.ReadPrevious? || ev.CheckNonePromoted?)
    requires TxOk(w.tables, w.txs[ev.t]) && ev.t in Next(w, ev).txs
    ensures TxOk(w.tables, Next(w, ev).txs[ev.t])
  {
  }

  lemma WriteIsRight(w: World, ev: Event)
    requires Possible(w, ev) && (ev.DemotePrevious? || ev.WriteSelf? || ev.MarkRolledBack? || ev.RestoreTarget?)
    requires TxOk(w.tables, w.txs[ev.t])
    ensures TxOk(w.tables, Next(w, ev).txs[ev.t])
  {
  }

  lemma FirstWriteKeepsInv(w: World, ev: Event, p: Id)
    requires Inv(w) && Possible(w, ev)
    requires (ev.DemotePrevious? && w.txs[ev.t].pc.prev == Some(p)) || (ev.RestoreTarget? && w.txs[ev.t].pc.target == p)
    ensures Inv(Next(w, ev))
  {
    assert TxOk(w.tables, w.txs[ev.t]);
    WriteIsRight(w, ev);
    ClassLocksStay(w, Next(w, ev), ev.t);
    TransactionMoves(w, Next(w, ev), ev.t, {p});
  }

  lemma OwnWriteTakesNothing(w: World, ev: Event)
    requires RowLocksOk(w.txs, w.rowLocks) && Possible(w, ev)
    requires ev.WriteSelf? || ev.MarkRolledBack? || (ev.DemotePrevious? && w.txs[ev.t].pc.prev.None?)
    ensures Acquires(w, Next(w, ev), ev.t, {})
  {
    var v := Next(w, ev);
    assert w.txs[ev.t].pc.c in HeldRows(w.txs[ev.t].pc);
    assert HeldRows(v.txs[ev.t].pc) == HeldRows(w.txs[ev.t].pc) + {};
    assert v.rowLocks == w.rowLocks;
  }

  lemma OwnWriteKeepsInv(w: World, ev: Event)
    requires Inv(w) && Possible(w, ev)
    requires ev.WriteSelf? || ev.MarkRolledBack? || (ev.DemotePrevious? && w.txs[ev.t].pc.prev.None?)
    ensures Inv(Next(w, ev))
  {
    assert TxOk(w.tables, w.txs[ev.t]);
    WriteIsRight(w, ev);
    OwnWriteTakesNothing(w, ev);
    ClassLocksStay(w, Next(w, ev), ev.t);
    TransactionMoves(w, Next(w, ev), ev.t, {});
  }

  // ---- commits -----------------------------------------------------------------------------------------

  /** A committing transaction wrote only rows it had locked, and promoted only in a class it had locked. */
  lemma CommitDisturbsNobody(w: World, u: Tables, t: Id, other: Id)
    requires LocksOk(w) && t in w.txs && other in w.txs && other != t
    requires Extends(w.tables, u)
    requires forall x :: x in w.tables.candidates && x !in HeldRows(w.txs[t].pc) ==> u.candidates[x] == w.tables.candidates[x]
    requires HoldsClass(w.txs[t].pc) ==>
      forall x: Id, cls :: IsPromoted(u, x, cls) ==> IsPromoted(w.tables, x, cls) || cls == w.txs[t].pc.cls
    requires !HoldsClass(w.txs[t].pc) ==> forall x: Id, cls :: IsPromoted(u, x, cls) ==> IsPromoted(w.tables, x, cls)
    ensures Undisturbed(w.tables, u, w.txs[other].pc)
  {
    forall r | r in HeldRows(w.txs[other].pc) ensures r !in HeldRows(w.txs[t].pc) {
      assert w.rowLocks[r] == other;
    }
  }

  lemma CommittedAndEnded(w: World, u: Tables, t: Id)
    requires LocksOk(w) && (forall o :: o in w.txs ==> TxOk(w.tables, w.txs[o])) && t in w.txs && Sound(u)
    requires forall o :: o in w.txs && o != t ==> Undisturbed(w.tables, u, w.txs[o].pc)
    ensures Inv(Ended(w, t).(tables := u))
  {
    EndingKeepsLocks(w, t);
    CommittedAlone(Ended(w, t), u);
  }

  lemma PromoteWrites(w: World, t: Id)
    requires t in w.txs && w.txs[t].pc.WrotePromotion? && TxOk(w.tables, w.txs[t])
    ensures var pc := w.txs[t].pc;
      Next(w, Commit(t)).tables == Promote(w.tables, pc.c, pc.prev, pc.now)
  {
  }

  lemma RollbackWrites(w: World, t: Id)
    requires t in w.txs && w.txs[t].pc.WroteRestore? && TxOk(w.tables, w.txs[t])
    ensures var pc := w.txs[t].pc;
      Next(w, Commit(t)).tables == Rollback(w.tables, pc.c, pc.target, pc.now)
  {
  }

  /** What a Promote commits is Promote's two UPDATEs on the rows as they are at that moment, whatever happened
      while it ran. */
  lemma PromoteCommits(w: World, t: Id)
    requires Sound(w.tables) && t in w.txs && w.txs[t].pc.WrotePromotion? && TxOk(w.tables, w.txs[t])
    ensures var pc := w.txs[t].pc; var u := Next(w, Commit(t)).tables;
      && u == Promote(w.tables, pc.c, pc.prev, pc.now)
      && Sound(u) && Extends(w.tables, u) && IsPromoted(u, pc.c, pc.cls)
  {
    var pc := w.txs[t].pc;
    PromoteWrites(w, t);
    PromoteIsSound(w.tables, pc.c, pc.cls, pc.prev, pc.now);
  }

  lemma RollbackCommits(w: World, t: Id)
    requires Sound(w.tables) && t in w.txs && w.txs[t].pc.WroteRestore? && TxOk(w.tables, w.txs[t])
    ensures var pc := w.txs[t].pc; var u := Next(w, Commit(t)).tables;
      && u == Rollback(w.tables, pc.c, pc.target, pc.now)
      && Sound(u) && Extends(w.tables, u) && IsPromoted(u, pc.target, pc.cls)
  {
    var pc := w.txs[t].pc;
    RollbackWrites(w, t);
    RollbackIsSound(w.tables, pc.c, pc.cls, pc.target, pc.now);
  }

  lemma CommitKeepsInv(w: World, t: Id)
    requires Inv(w) && Possible(w, Commit(t))
    ensures Inv(Next(w, Commit(t)))
  {
    var u := Next(w, Commit(t)).tables;
    var pc := w.txs[t].pc;
    assert TxOk(w.tables, w.txs[t]);
    if pc.WrotePromotion? { PromoteCommits(w, t); } else { RollbackCommits(w, t); }
    forall x: Id, cls | IsPromoted(u, x, cls) ensures IsPromoted(w.tables, x, cls) || cls == pc.cls {
    }
    forall o | o in w.txs && o != t { CommitDisturbsNobody(w, u, t, o); }
    CommittedAndEnded(w, u, t);
  }

  lemma CommitEvalKeepsInv(w: World, t: Id, now: Time)
    requires Inv(w) && Possible(w, CommitEval(t, now))
    ensures Inv(Next(w, CommitEval(t, now)))
  {
    var pc := w.txs[t].pc;
    assert TxOk(w.tables, w.txs[t]);
    var u := Record(w.tables, pc.c, pc.passed, now);
    RecordIsSound(w.tables, pc.c, pc.passed, now);
    forall x: Id, cls | IsPromoted(u, x, cls) ensures IsPromoted(w.tables, x, cls) {
    }
    forall o | o in w.txs && o != t { CommitDisturbsNobody(w, u, t, o); }
    CommittedAndEnded(w, u, t);
  }

  /** Every statement of every transaction keeps the invariant. */
  lemma NextKeepsInv(w: World, ev: Event)
    requires Inv(w)
    ensures Inv(Next(w, ev))
  {
    if Possible(w, ev) {
      match ev
      case Begin(_, _, _) => BeginKeepsInv(w, ev);
      case BeginEval(_, _, _) => BeginKeepsInv(w, ev);
      case LockClass(t) => LockClassKeepsInv(w, t);
      case LockRow(t) =>
        if t in Next(w, ev).txs { LockRowKeepsInv(w, t); } else { EndingKeepsInv(w, t); }
      case CheckEvidence(_, _) => ReadKeepsInv(w, ev);
      case ReadPrevious(_, _) => ReadKeepsInv(w, ev);
      case CheckNonePromoted(_, _) => ReadKeepsInv(w, ev);
      case DemotePrevious(t, _) =>
        if w.txs[t].pc.prev.Some? { FirstWriteKeepsInv(w, ev, w.txs[t].pc.prev.value); } else { OwnWriteKeepsInv(w, ev); }
      case WriteSelf(_) => OwnWriteKeepsInv(w, ev);
      case MarkRolledBack(_, _) => OwnWriteKeepsInv(w, ev);
      case RestoreTarget(t) => FirstWriteKeepsInv(w, ev, w.txs[t].pc.target);
      case CommitEval(t, now) => CommitEvalKeepsInv(w, t, now);
      case Commit(t) => CommitKeepsInv(w, t);
      case Abort(t) => EndingKeepsInv(w, t);
      case _ => SingleStatementKeepsInv(w, ev);
    }
  }

  lemma {:induction false} RunKeepsInv(w: World, events: seq<Event>)
    requires Inv(w)
    ensures Inv(Run(w, events))
    decreases |events|
  {
    if events != [] {
      NextKeepsInv(w, events[0]);
      RunKeepsInv(Next(w, events[0]), events[1..]);
    }
  }
}
