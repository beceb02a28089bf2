/** At least one admin stays active, on Postgres at READ COMMITTED. Transactions of several connections interleave.
    Creating and enabling commit at once. Disabling and deleting first run a locking read: it lists the rows active
    when the statement starts, then locks them one by one, waiting for each and passing over those no longer active
    by then. The conditional write counts the other active rows when it starts and waits for its target; a target
    that changed meanwhile is looked at again, the count is not. */
module AdminRoster {

  datatype Kind = Disable | Delete

  datatype Phase =
    | Begun                                         // locking read not yet started
    | Locking(todo: set<nat>, locks: set<nat>)      // rows listed and still to be locked, rows locked
    | Holding(locks: set<nat>)                      // locking read done
    | Writing(locks: set<nat>, others: bool)        // conditional write started, whether it counted other active rows
    | Wrote(locks: set<nat>)                        // conditional write done, not yet committed

  datatype Tx = Tx(kind: Kind, target: nat, phase: Phase)

  // Committed rows (id to active) and open transactions.
  datatype World = World(rows: map<nat, bool>, txs: map<nat, Tx>)

  // SkipLocks is a transaction without the locking read; the source has none on Postgres.
  datatype Step =
    | Create(id: nat)
    | Enable(id: nat)
    | Begin(tx: nat, kind: Kind, target: nat)
    | List(tx: nat)
    | LockRow(tx: nat, id: nat)
    | SkipLocks(tx: nat)
    | StartWrite(tx: nat)
    | FinishWrite(tx: nat)
    | Commit(tx: nat)
    | Rollback(tx: nat)

  ghost predicate Active(w: World, id: nat) {
    id in w.rows && w.rows[id]
  }

  ghost function ActiveRows(w: World): set<nat> {
    set id | id in w.rows && w.rows[id]
  }

  ghost function Locks(t: Tx): set<nat> {
    if t.phase.Begun? then {} else t.phase.locks
  }

  // The locking read is over.
  ghost predicate Past(t: Tx) {
    t.phase.Holding? || t.phase.Writing? || t.phase.Wrote?
  }

  ghost predicate HasLock(w: World, tx: nat, id: nat) {
    tx in w.txs && id in Locks(w.txs[tx])
  }

  // Some transaction other than tx holds a lock on the row.
  ghost predicate HeldByOther(w: World, tx: nat, id: nat) {
    exists u :: u != tx && HasLock(w, u, id)
  }

  ghost predicate Held(w: World, id: nat) {
    exists u :: HasLock(w, u, id)
  }

  ghost predicate OtherActive(w: World, target: nat) {
    exists id :: id != target && Active(w, id)
  }

  // lastActiveCond on the row it is asked about, given what the count of the others was.
  ghost predicate LastActiveCond(w: World, target: nat, others: bool) {
    target in w.rows && (!w.rows[target] || others)
  }

  ghost predicate In(w: World, tx: nat) { tx in w.txs }

  ghost predicate Enabled(w: World, s: Step) {
    match s
    case Create(id) => id !in w.rows
    case Enable(id) => !Held(w, id)
    case Begin(tx, _, _) => !In(w, tx)
    case List(tx) => In(w, tx) && w.txs[tx].phase.Begun?
    case LockRow(tx, id) => In(w, tx) && w.txs[tx].phase.Locking? && id in w.txs[tx].phase.todo && !HeldByOther(w, tx, id)
    case SkipLocks(tx) => In(w, tx) && w.txs[tx].phase.Begun?
    case StartWrite(tx) => In(w, tx) && w.txs[tx].phase.Holding?
    case FinishWrite(tx) => In(w, tx) && w.txs[tx].phase.Writing? && !HeldByOther(w, tx, w.txs[tx].target)
    case Commit(tx) => In(w, tx) && w.txs[tx].phase.Wrote?
    case Rollback(tx) => In(w, tx)
  }

  ghost function SetPhase(w: World, tx: nat, p: Phase): World
    requires tx in w.txs
  {
    w.(txs := w.txs[tx := w.txs[tx].(phase := p)])
  }

  ghost function Reading(todo: set<nat>, locks: set<nat>): Phase {
    if todo == {} then Holding(locks) else Locking(todo, locks)
  }

  ghost function Without(w: World, tx: nat): World {
    w.(txs := w.txs - {tx})
  }

  ghost function Next(w: World, s: Step): World
    requires Enabled(w, s)
  {
    match s
    case Create(id) => w.(rows := w.rows[id := true])
    case Enable(id) => if id in w.rows then w.(rows := w.rows[id := true]) else w
    case Begin(tx, kind, target) => w.(txs := w.txs[tx := Tx(kind, target, Begun)])
    case List(tx) => SetPhase(w, tx, Reading(ActiveRows(w), {}))
    case LockRow(tx, id) =>
      var p := w.txs[tx].phase;
      SetPhase(w, tx, Reading(p.todo - {id}, if Active(w, id) then p.locks + {id} else p.locks))
    case SkipLocks(tx) => SetPhase(w, tx, Holding({}))
    case StartWrite(tx) =>
      var t := w.txs[tx];
      var others := OtherActive(w, t.target);
      if LastActiveCond(w, t.target, others) then SetPhase(w, tx, Writing(t.phase.locks, others))
      else Without(w, tx)  // ErrNotFound or ErrLastActiveAdmin, rolled back
    case FinishWrite(tx) =>
      var t := w.txs[tx];
      if LastActiveCond(w, t.target, t.phase.others) then SetPhase(w, tx, Wrote(t.phase.locks + {t.target}))
      else Without(w, tx)
    case Commit(tx) =>
      var t := w.txs[tx];
      World(if t.kind.Delete? then w.rows - {t.target} else w.rows[t.target := false], w.txs - {tx})
    case Rollback(tx) => Without(w, tx)
  }

  ghost predicate SomeActive(w: World) {
    exists id :: Active(w, id)
  }

  /** What each step does to each row: a creation and an enabling make it active, a committed disabling leaves it there
      inactive, a committed deletion takes it away; nothing else touches it. */
  lemma RowAfter(w: World, s: Step, id: nat)
    requires Enabled(w, s)
    ensures var rows := Next(w, s).rows;
            if s == Create(id) || (s == Enable(id) && id in w.rows) then id in rows && rows[id]
            else if s.Commit? && w.txs[s.tx].target == id && w.txs[s.tx].kind.Disable? then id in rows && !rows[id]
            else if s.Commit? && w.txs[s.tx].target == id && w.txs[s.tx].kind.Delete? then id !in rows
            else (id in rows <==> id in w.rows) && (id in rows ==> rows[id] == w.rows[id])
  {
  }

  // Another transaction has the row locked.
  ghost predicate LockedElsewhere(w: World, tx: nat, id: nat) {
    exists u :: u in w.txs && u != tx && !w.txs[u].phase.Begun? && id in w.txs[u].phase.locks
  }

  /** Only locks make anybody wait: a new id can be created, a row nobody has locked can be enabled, and an open
      transaction can always take its next step unless the row it needs is locked by another. */
  lemma OnlyLocksDelay(w: World, id: nat, tx: nat)
    ensures id !in w.rows ==> Enabled(w, Create(id))
    ensures (forall u :: u in w.txs && !w.txs[u].phase.Begun? ==> id !in w.txs[u].phase.locks) ==> Enabled(w, Enable(id))
    ensures tx !in w.txs ==> forall kind :: Enabled(w, Begin(tx, kind, id))
    ensures tx in w.txs ==>
              match w.txs[tx].phase
              case Begun => Enabled(w, List(tx))
              case Locking(todo, _) => id in todo ==> (Enabled(w, LockRow(tx, id)) <==> !LockedElsewhere(w, tx, id))
              case Holding(_) => Enabled(w, StartWrite(tx))
              case Writing(_, _) => Enabled(w, FinishWrite(tx)) <==> !LockedElsewhere(w, tx, w.txs[tx].target)
              case Wrote(_) => Enabled(w, Commit(tx))
  {
    forall u, i | u in w.txs && u != tx && !w.txs[u].phase.Begun? && i in w.txs[u].phase.locks ensures HeldByOther(w, tx, i) {
      assert HasLock(w, u, i);
    }
  }

  /** A conditional write goes ahead exactly when its target exists and is inactive already or not the last active one,
      and is refused, with nothing changed, otherwise. */
  lemma WriteRefusedIff(w: World, tx: nat)
    requires Enabled(w, StartWrite(tx))
    ensures var target := w.txs[tx].target;
            var goes := target in w.rows && (!w.rows[target] || exists id :: id != target && id in w.rows && w.rows[id]);
            && Next(w, StartWrite(tx)).rows == w.rows
            && (tx in Next(w, StartWrite(tx)).txs <==> goes)
            && (goes ==> Next(w, StartWrite(tx)).txs[tx].phase.Writing?
                         && (Next(w, StartWrite(tx)).txs[tx].phase.others <==> exists id :: id != target && id in w.rows && w.rows[id]))
  {
    var target := w.txs[tx].target;
    if id :| id != target && id in w.rows && w.rows[id] { assert Active(w, id); }
    if id :| id != target && Active(w, id) { assert id in w.rows && w.rows[id]; }
  }

  /** Nobody in its way, the write then finishes on its target as it is by then, by the count it took. */
  lemma FinishRefusedIff(w: World, tx: nat)
    requires Enabled(w, FinishWrite(tx))
    ensures var t := w.txs[tx];
            var goes := t.target in w.rows && (!w.rows[t.target] || t.phase.others);
            && Next(w, FinishWrite(tx)).rows == w.rows && (tx in Next(w, FinishWrite(tx)).txs <==> goes)
            && (goes ==> Next(w, FinishWrite(tx)).txs[tx] == t.(phase := Wrote(t.phase.locks + {t.target})))
  {
  }

  // ----- one writer at a time is enough ---------------------------------------------------

  ghost predicate OnePast(w: World) {
    forall tx, u :: tx in w.txs && u in w.txs && tx != u ==> !Past(w.txs[tx]) || !Past(w.txs[u])
  }

  // A count of other active rows still holds, and a write still to be committed leaves somebody.
  ghost predicate WriteOk(w: World, t: Tx) {
    match t.phase
    case Writing(_, others) => others ==> OtherActive(w, t.target)
    case Wrote(locks) => t.target in locks && LastActiveCond(w, t.target, OtherActive(w, t.target))
    case _ => true
  }

  ghost predicate Safe(w: World) {
    SomeActive(w) && forall tx :: tx in w.txs ==> WriteOk(w, w.txs[tx])
  }

  // More active rows; a locked row keeps its state.
  ghost predicate MoreActive(w: World, w': World) {
    && w'.txs == w.txs && (forall id :: Active(w, id) ==> Active(w', id))
    && forall id :: id in w.rows ==> id in w'.rows && (Held(w, id) ==> w'.rows[id] == w.rows[id])
  }

  lemma OthersStay(w: World, w': World, target: nat)
    requires OtherActive(w, target) && forall id :: Active(w, id) ==> Active(w', id)
    ensures OtherActive(w', target)
  {
    var id :| id != target && Active(w, id);
    assert Active(w', id);
  }

  lemma MoreIsSafe(w: World, w': World)
    requires Safe(w) && MoreActive(w, w')
    ensures Safe(w')
  {
    var a :| Active(w, a);
    assert Active(w', a);
    forall tx | tx in w'.txs ensures WriteOk(w', w'.txs[tx]) {
      var t := w.txs[tx];
      assert WriteOk(w, t);
      if OtherActive(w, t.target) { OthersStay(w, w', t.target); }
      if t.phase.Wrote? { assert HasLock(w, tx, t.target); }
    }
  }

  // The same rows; at most one transaction is new or changed.
  lemma SameRowsSafe(w: World, w': World, tx: nat)
    requires Safe(w) && w'.rows == w.rows && (tx in w'.txs ==> WriteOk(w', w'.txs[tx]))
    requires forall u :: u in w'.txs && u != tx ==> u in w.txs && w'.txs[u] == w.txs[u]
    ensures Safe(w')
  {
    var a :| Active(w, a);
    assert Active(w', a);
    forall u | u in w'.txs ensures WriteOk(w', w'.txs[u]) {
      if u != tx {
        var t := w.txs[u];
        assert WriteOk(w, t);
        if OtherActive(w, t.target) { OthersStay(w, w', t.target); }
      }
    }
  }

  lemma FinishIsOk(w: World, tx: nat)
    requires Safe(w) && Enabled(w, FinishWrite(tx))
    ensures Safe(Next(w, FinishWrite(tx)))
  {
    var w' := Next(w, FinishWrite(tx));
    assert WriteOk(w, w.txs[tx]);
    if OtherActive(w, w.txs[tx].target) { OthersStay(w, w', w.txs[tx].target); }
    SameRowsSafe(w, w', tx);
  }

  lemma StartIsOk(w: World, tx: nat)
    requires Safe(w) && Enabled(w, StartWrite(tx))
    ensures Safe(Next(w, StartWrite(tx)))
  {
    var w' := Next(w, StartWrite(tx));
    if OtherActive(w, w.txs[tx].target) { OthersStay(w, w', w.txs[tx].target); }
    SameRowsSafe(w, w', tx);
  }

  // Nobody else is past the locking read, so nobody's count depends on the row that goes.
  lemma CommitIsOk(w: World, tx: nat)
    requires Safe(w) && OnePast(w) && Enabled(w, Commit(tx))
    ensures Safe(Next(w, Commit(tx)))
  {
    var w' := Next(w, Commit(tx));
    var t := w.txs[tx];
    assert WriteOk(w, t) && Past(t);
    CommitLeaves(w, tx);
    forall u | u in w'.txs ensures WriteOk(w', w'.txs[u]) { assert !Past(w.txs[u]); }
  }

  lemma CommitLeaves(w: World, tx: nat)
    requires Safe(w) && Enabled(w, Commit(tx))
    ensures SomeActive(Next(w, Commit(tx)))
  {
    var t := w.txs[tx];
    assert WriteOk(w, t);
    var a :| Active(w, a);
    assert a == t.target ==> OtherActive(w, t.target);
    var id :| id != t.target && Active(w, id);
    assert Active(Next(w, Commit(tx)), id);
  }

  lemma StepIsSafe(w: World, s: Step)
    requires Safe(w) && OnePast(w) && Enabled(w, s)
    ensures Safe(Next(w, s))
  {
    match s
    case Create(_) => MoreIsSafe(w, Next(w, s));
    case Enable(_) => MoreIsSafe(w, Next(w, s));
    case StartWrite(tx) => StartIsOk(w, tx);
    case FinishWrite(tx) => FinishIsOk(w, tx);
    case Commit(tx) => CommitIsOk(w, tx);
    case Begin(tx, _, _) => SameRowsSafe(w, Next(w, s), tx);
    case List(tx) => SameRowsSafe(w, Next(w, s), tx);
    case LockRow(tx, _) => SameRowsSafe(w, Next(w, s), tx);
    case SkipLocks(tx) => SameRowsSafe(w, Next(w, s), tx);
    case Rollback(tx) => SameRowsSafe(w, Next(w, s), tx);
  }

  // ----- the locking read gives one writer at a time ----------------------------------------

  ghost predicate Exclusive(w: World) {
    forall tx, u, id :: HasLock(w, tx, id) && HasLock(w, u, id) ==> tx == u
  }

  // A locking read under way will have locked every active row; one that is over has an active row locked.
  ghost predicate ReadOk(w: World, t: Tx) {
    && (t.phase.Locking? ==> forall id :: Active(w, id) ==> id in t.phase.todo || id in t.phase.locks)
    && (Past(t) ==> exists id :: id in Locks(t) && Active(w, id))
  }

  ghost predicate Locked(w: World) {
    Exclusive(w) && OnePast(w) && forall tx :: tx in w.txs ==> ReadOk(w, w.txs[tx])
  }

  // The step makes a row active.
  ghost predicate Wakes(w: World, s: Step) {
    s.Create? || (s.Enable? && s.id in w.rows && !w.rows[s.id])
  }

  // Rows do not become active while a locking read is under way.
  ghost predicate Quiet(w: World, s: Step) {
    Wakes(w, s) ==> forall tx :: tx in w.txs ==> !w.txs[tx].phase.Locking?
  }

  lemma GuardStays(w: World, w': World, t: Tx)
    requires ReadOk(w, t) && Past(t) && forall id :: id in Locks(t) && Active(w, id) ==> Active(w', id)
    ensures ReadOk(w', t)
  {
    var id :| id in Locks(t) && Active(w, id);
    assert Active(w', id);
  }

  lemma WakeKeepsLocked(w: World, s: Step)
    requires Locked(w) && Enabled(w, s) && (s.Create? || s.Enable?) && Quiet(w, s)
    ensures Locked(Next(w, s))
  {
    var w' := Next(w, s);
    if !Wakes(w, s) {
      assert w'.rows == w.rows;
    } else {
      forall tx | tx in w'.txs ensures ReadOk(w', w'.txs[tx]) {
        if Past(w.txs[tx]) { GuardStays(w, w', w.txs[tx]); }
      }
      LocksKept(w, w');
    }
  }

  lemma LocksKept(w: World, w': World)
    requires Exclusive(w) && forall tx, id :: HasLock(w', tx, id) ==> HasLock(w, tx, id)
    ensures Exclusive(w')
  {
  }

  // The same rows; tx is new, gone or changed, its locks no others', and past only if it was or nobody is.
  lemma TxKeepsLocked(w: World, w': World, tx: nat)
    requires Locked(w) && w'.rows == w.rows && Exclusive(w') && (tx in w'.txs ==> ReadOk(w', w'.txs[tx]))
    requires forall u :: u in w'.txs && u != tx ==> u in w.txs && w'.txs[u] == w.txs[u]
    requires tx in w'.txs && Past(w'.txs[tx]) ==>
               (tx in w.txs && Past(w.txs[tx])) || forall u :: u in w.txs && u != tx ==> !Past(w.txs[u])
    ensures Locked(w')
  {
    forall u | u in w'.txs ensures ReadOk(w', w'.txs[u]) {
      if u != tx {
        assert ReadOk(w, w.txs[u]);
        if Past(w.txs[u]) { GuardStays(w, w', w.txs[u]); }
      }
    }
  }

  lemma ListKeepsLocked(w: World, tx: nat)
    requires Locked(w) && SomeActive(w) && Enabled(w, List(tx))
    ensures Locked(Next(w, List(tx)))
  {
    var w' := Next(w, List(tx));
    var a :| Active(w, a);
    assert a in ActiveRows(w);
    forall u, id | HasLock(w', u, id) ensures HasLock(w, u, id) {}
    LocksKept(w, w');
    TxKeepsLocked(w, w', tx);
  }

  lemma LockExclusive(w: World, tx: nat, id: nat)
    requires Exclusive(w) && Enabled(w, LockRow(tx, id))
    ensures Exclusive(Next(w, LockRow(tx, id)))
  {
    OneMoreLock(w, Next(w, LockRow(tx, id)), tx, id);
  }

  lemma OneMoreLock(w: World, w': World, tx: nat, id: nat)
    requires Exclusive(w) && !HeldByOther(w, tx, id)
    requires forall u, x :: HasLock(w', u, x) ==> HasLock(w, u, x) || (u == tx && x == id)
    ensures Exclusive(w')
  {
    forall u, v, x | HasLock(w', u, x) && HasLock(w', v, x) ensures u == v {
      if u == tx && x == id { assert HasLock(w, v, x) ==> v == tx; }
      if v == tx && x == id { assert HasLock(w, u, x) ==> u == tx; }
    }
  }

  // Once the read is over it holds every active row, so nobody else holds one.
  lemma GrantIsAlone(w: World, w': World, tx: nat)
    requires Locked(w) && SomeActive(w) && Exclusive(w') && w'.rows == w.rows && tx in w'.txs
    requires forall id :: Active(w, id) ==> id in Locks(w'.txs[tx])
    requires forall u :: u in w.txs && u != tx ==> u in w'.txs && w'.txs[u] == w.txs[u]
    ensures exists id :: id in Locks(w'.txs[tx]) && Active(w', id)
    ensures forall u :: u in w.txs && u != tx ==> !Past(w.txs[u])
  {
    var a :| Active(w, a);
    assert a in Locks(w'.txs[tx]) && Active(w', a);
    forall u | u in w.txs && u != tx ensures !Past(w.txs[u]) {
      assert ReadOk(w, w.txs[u]);
      if Past(w.txs[u]) {
        var g :| g in Locks(w.txs[u]) && Active(w, g);
        assert HasLock(w', u, g) && HasLock(w', tx, g);
      }
    }
  }

  lemma LockKeepsLocked(w: World, tx: nat, id: nat)
    requires Locked(w) && SomeActive(w) && Enabled(w, LockRow(tx, id))
    ensures Locked(Next(w, LockRow(tx, id)))
  {
    var w' := Next(w, LockRow(tx, id));
    assert ReadOk(w, w.txs[tx]);
    LockExclusive(w, tx, id);
    if w'.txs[tx].phase.Holding? {
      var p := w.txs[tx].phase;
      forall x | Active(w, x) ensures x in Locks(w'.txs[tx]) { assert x in p.todo ==> x in p.todo - {id} || x == id; }
      GrantIsAlone(w, w', tx);
    }
    TxKeepsLocked(w, w', tx);
  }

  lemma WriteKeepsLocked(w: World, s: Step)
    requires Locked(w) && Enabled(w, s) && (s.StartWrite? || s.FinishWrite?)
    ensures Locked(Next(w, s))
  {
    var w', tx := Next(w, s), s.tx;
    assert ReadOk(w, w.txs[tx]);
    var g :| g in Locks(w.txs[tx]) && Active(w, g);
    assert tx in w'.txs ==> g in Locks(w'.txs[tx]) && Active(w', g);
    WriteExclusive(w, s);
    TxKeepsLocked(w, w', tx);
  }

  lemma WriteExclusive(w: World, s: Step)
    requires Exclusive(w) && Enabled(w, s) && (s.StartWrite? || s.FinishWrite?)
    ensures Exclusive(Next(w, s))
  {
    if s.FinishWrite? { OneMoreLock(w, Next(w, s), s.tx, w.txs[s.tx].target); } else { LocksKept(w, Next(w, s)); }
  }

  lemma CommitKeepsLocked(w: World, tx: nat)
    requires Locked(w) && Safe(w) && Enabled(w, Commit(tx))
    ensures Locked(Next(w, Commit(tx)))
  {
    var w' := Next(w, Commit(tx));
    assert WriteOk(w, w.txs[tx]) && HasLock(w, tx, w.txs[tx].target);
    LocksKept(w, w');
    forall u | u in w'.txs ensures ReadOk(w', w'.txs[u]) {
      assert ReadOk(w, w.txs[u]);
      if Past(w.txs[u]) { assert Past(w.txs[tx]); }
    }
  }

  lemma DropKeepsLocked(w: World, tx: nat)
    requires Locked(w)
    ensures Locked(Without(w, tx))
  {
    LocksKept(w, Without(w, tx));
    TxKeepsLocked(w, Without(w, tx), tx);
  }

  lemma BeginKeepsLocked(w: World, tx: nat, kind: Kind, target: nat)
    requires Locked(w) && Enabled(w, Begin(tx, kind, target))
    ensures Locked(Next(w, Begin(tx, kind, target)))
  {
    var w' := Next(w, Begin(tx, kind, target));
    LocksKept(w, w');
    TxKeepsLocked(w, w', tx);
  }

  lemma StepKeepsLocked(w: World, s: Step)
    requires Locked(w) && Safe(w) && Enabled(w, s) && Quiet(w, s) && !s.SkipLocks?
    ensures Locked(Next(w, s))
  {
    match s
    case Create(_) => WakeKeepsLocked(w, s);
    case Enable(_) => WakeKeepsLocked(w, s);
    case Begin(tx, kind, target) => BeginKeepsLocked(w, tx, kind, target);
    case List(tx) => ListKeepsLocked(w, tx);
    case LockRow(tx, id) => LockKeepsLocked(w, tx, id);
    case StartWrite(_) => WriteKeepsLocked(w, s);
    case FinishWrite(_) => WriteKeepsLocked(w, s);
    case Commit(tx) => CommitKeepsLocked(w, tx);
    case Rollback(tx) => DropKeepsLocked(w, tx);
  }

  // ----- runs -------------------------------------------------------------------------------

  ghost predicate Run(w: World, steps: seq<Step>, w': World)
    decreases |steps|
  {
    if steps == [] then w == w' else Enabled(w, steps[0]) && Run(Next(w, steps[0]), steps[1..], w')
  }

  // Nobody skips the locking read, and rows become active only between locking reads.
  ghost predicate QuietRun(w: World, steps: seq<Step>)
    decreases |steps|
  {
    steps != [] && Enabled(w, steps[0]) ==>
      !steps[0].SkipLocks? && Quiet(w, steps[0]) && QuietRun(Next(w, steps[0]), steps[1..])
  }

  // At no time are two transactions past the point of locking.
  ghost predicate SerialRun(w: World, steps: seq<Step>)
    decreases |steps|
  {
    OnePast(w) && (steps != [] && Enabled(w, steps[0]) ==> SerialRun(Next(w, steps[0]), steps[1..]))
  }

  lemma {:induction false} SerialIsSafe(w: World, steps: seq<Step>, w': World)
    requires Safe(w) && Run(w, steps, w') && SerialRun(w, steps)
    ensures Safe(w')
    decreases |steps|
  {
    if steps != [] {
      StepIsSafe(w, steps[0]);
      SerialIsSafe(Next(w, steps[0]), steps[1..], w');
    }
  }

  lemma {:induction false} QuietIsSerial(w: World, steps: seq<Step>)
    requires Safe(w) && Locked(w) && QuietRun(w, steps)
    ensures SerialRun(w, steps)
    decreases |steps|
  {
    if steps != [] && Enabled(w, steps[0]) {
      StepIsSafe(w, steps[0]);
      StepKeepsLocked(w, steps[0]);
      QuietIsSerial(Next(w, steps[0]), steps[1..]);
    }
  }

  /** From any roster with an active admin and no transaction open, every interleaving in which no row becomes active
      while a locking read is under way leaves an active admin. */
  lemma SomeoneStaysActive(rows: map<nat, bool>, steps: seq<Step>, w': World)
    requires SomeActive(World(rows, map[])) && Run(World(rows, map[]), steps, w') && QuietRun(World(rows, map[]), steps)
    ensures SomeActive(w')
  {
    QuietIsSerial(World(rows, map[]), steps);
    SerialIsSafe(World(rows, map[]), steps, w');
  }

  /** What decides is the writers: so does every interleaving in which no two of them are past locking at once. */
  lemma OneWriterSuffices(rows: map<nat, bool>, steps: seq<Step>, w': World)
    requires SomeActive(World(rows, map[])) && Run(World(rows, map[]), steps, w') && SerialRun(World(rows, map[]), steps)
    ensures SomeActive(w')
  {
    SerialIsSafe(World(rows, map[]), steps, w');
  }
}
