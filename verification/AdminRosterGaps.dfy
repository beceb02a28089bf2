/** Runs that leave nobody active: why the roster's theorem asks what it asks. */
module AdminRosterGaps {
  import opened AdminRoster

  // ----- neither condition can go -----------------------------------------------------------

  lemma {:induction false} RunAppend(w: World, steps: seq<Step>, v: World, s: Step)
    requires Run(w, steps, v) && Enabled(v, s)
    ensures Run(w, steps + [s], Next(v, s))
    decreases |steps|
  {
    if steps != [] {
      assert (steps + [s])[1..] == steps[1..] + [s];
      RunAppend(Next(w, steps[0]), steps[1..], v, s);
    }
  }

  ghost predicate NoSkip(steps: seq<Step>) {
    forall i :: 0 <= i < |steps| ==> !steps[i].SkipLocks?
  }

  // One more step of a run.
  lemma Take(w: World, steps: seq<Step>, v: World, s: Step, v': World) returns (more: seq<Step>)
    requires Run(w, steps, v) && Enabled(v, s) && Next(v, s) == v'
    ensures Run(w, more, v') && (NoSkip(steps) && !s.SkipLocks? ==> NoSkip(more))
  {
    RunAppend(w, steps, v, s);
    more := steps + [s];
  }

  // A transaction of which only target and phase matter here.
  function Off(target: nat, p: Phase): Tx {
    Tx(Disable, target, p)
  }

  // The active rows are just these.
  ghost predicate Only(rows: map<nat, bool>, on: set<nat>) {
    forall id :: id in on <==> id in rows && rows[id]
  }

  // Begin and List of a transaction on a roster with one active row.
  lemma Lists(w: World, steps: seq<Step>, v: World, tx: nat, target: nat, on: nat) returns (more: seq<Step>, v': World)
    requires Run(w, steps, v) && tx !in v.txs && Only(v.rows, {on})
    ensures Run(w, more, v') && v' == v.(txs := v.txs[tx := Off(target, Locking({on}, {}))])
    ensures NoSkip(steps) ==> NoSkip(more)
  {
    var u := v.(txs := v.txs[tx := Off(target, Begun)]);
    more := Take(w, steps, v, Begin(tx, Disable, target), u);
    assert ActiveRows(u) == {on};
    v' := v.(txs := v.txs[tx := Off(target, Locking({on}, {}))]);
    assert SetPhase(u, tx, Locking({on}, {})) == v';
    more := Take(w, more, u, List(tx), v');
  }

  // The listed row is locked, or passed over when it is no longer active.
  lemma Gets(w: World, steps: seq<Step>, v: World, tx: nat, target: nat, on: nat) returns (more: seq<Step>, v': World)
    requires Run(w, steps, v) && tx in v.txs && v.txs[tx] == Off(target, Locking({on}, {})) && !HeldByOther(v, tx, on)
    ensures Run(w, more, v') && (NoSkip(steps) ==> NoSkip(more))
    ensures v' == v.(txs := v.txs[tx := Off(target, Holding(if Active(v, on) then {on} else {}))])
  {
    v' := v.(txs := v.txs[tx := Off(target, Holding(if Active(v, on) then {on} else {}))]);
    assert {on} - {on} == {} && {} + {on} == {on};
    more := Take(w, steps, v, LockRow(tx, on), v');
  }

  // The conditional write of an active target next to another active row.
  lemma Writes(w: World, steps: seq<Step>, v: World, tx: nat, target: nat, locks: set<nat>, other: nat) returns (more: seq<Step>, v': World)
    requires Run(w, steps, v) && tx in v.txs && v.txs[tx] == Off(target, Holding(locks)) && !HeldByOther(v, tx, target)
    requires target in v.rows && other != target && Active(v, other)
    ensures Run(w, more, v') && v' == v.(txs := v.txs[tx := Off(target, Wrote(locks + {target}))])
    ensures NoSkip(steps) ==> NoSkip(more)
  {
    var u := v.(txs := v.txs[tx := Off(target, Writing(locks, true))]);
    more := Take(w, steps, v, StartWrite(tx), u);
    forall x | x != tx && HasLock(u, x, target) ensures false { assert HasLock(v, x, target); }
    v' := v.(txs := v.txs[tx := Off(target, Wrote(locks + {target}))]);
    assert SetPhase(u, tx, Wrote(locks + {target})) == v';
    more := Take(w, more, u, FinishWrite(tx), v');
  }

  // ----- down to the admins of a failing run --------------------------------------------------

  // With nobody else around, the rows listed are locked in any order.
  lemma {:induction false} LocksAll(w: World, steps: seq<Step>, v: World, target: nat, todo: set<nat>, locks: set<nat>)
      returns (more: seq<Step>, v': World)
    requires Run(w, steps, v) && v.txs == map[0 := Off(target, Reading(todo, locks))] && forall id :: id in todo ==> Active(v, id)
    ensures Run(w, more, v') && v' == v.(txs := map[0 := Off(target, Holding(locks + todo))])
    ensures NoSkip(steps) ==> NoSkip(more)
    decreases |todo|
  {
    if todo == {} {
      assert locks + todo == locks;
      more, v' := steps, v;
    } else {
      var id :| id in todo;
      var u := v.(txs := map[0 := Off(target, Reading(todo - {id}, locks + {id}))]);
      LocksOne(v, target, todo, locks, id);
      more := Take(w, steps, v, LockRow(0, id), u);
      more, v' := LocksAll(w, more, u, target, todo - {id}, locks + {id});
      assert locks + {id} + (todo - {id}) == locks + todo;
    }
  }

  lemma LocksOne(v: World, target: nat, todo: set<nat>, locks: set<nat>, id: nat)
    requires v.txs == map[0 := Off(target, Reading(todo, locks))] && id in todo && Active(v, id)
    ensures Enabled(v, LockRow(0, id))
    ensures Next(v, LockRow(0, id)) == v.(txs := map[0 := Off(target, Reading(todo - {id}, locks + {id}))])
  {
  }

  // One undisturbed transaction that disables an active admin next to another one.
  lemma DisablesOne(w: World, steps: seq<Step>, rows: map<nat, bool>, target: nat, other: nat) returns (more: seq<Step>)
    requires Run(w, steps, World(rows, map[])) && target != other && target in rows && other in rows && rows[other]
    ensures Run(w, more, World(rows[target := false], map[])) && (NoSkip(steps) ==> NoSkip(more))
  {
    var v := World(rows, map[]);
    var u := World(rows, map[0 := Off(target, Begun)]);
    more := Take(w, steps, v, Begin(0, Disable, target), u);
    v := World(rows, map[0 := Off(target, Reading(ActiveRows(u), {}))]);
    more := Take(w, more, u, List(0), v);
    more, v := LocksAll(w, more, v, target, ActiveRows(u), {});
    assert Active(v, other);
    more, v := Writes(w, more, v, 0, target, {} + ActiveRows(u), other);
    u := World(rows[target := false], map[]);
    assert v.txs - {0} == map[];
    more := Take(w, more, v, Commit(0), u);
  }

  // The admins outside keep are disabled one after the other.
  lemma {:induction false} DisablesDown(w: World, steps: seq<Step>, rows: map<nat, bool>, keep: set<nat>, other: nat)
      returns (more: seq<Step>, rows': map<nat, bool>)
    requires Run(w, steps, World(rows, map[])) && other in keep && forall id :: id in keep ==> id in rows && rows[id]
    ensures Run(w, more, World(rows', map[])) && Only(rows', keep) && rows'.Keys == rows.Keys && (NoSkip(steps) ==> NoSkip(more))
    decreases |ActiveRows(World(rows, map[])) - keep|
  {
    var extra := ActiveRows(World(rows, map[])) - keep;
    if extra == {} {
      forall id ensures id in keep <==> id in rows && rows[id] { assert id !in extra; }
      more, rows' := steps, rows;
    } else {
      var id :| id in extra;
      more := DisablesOne(w, steps, rows, id, other);
      assert ActiveRows(World(rows[id := false], map[])) - keep == extra - {id};
      more, rows' := DisablesDown(w, more, rows[id := false], keep, other);
    }
  }

  lemma {:induction false} Above(ids: set<nat>) returns (n: nat)
    ensures forall id :: id in ids ==> id < n
    decreases |ids|
  {
    if ids == {} {
      n := 0;
    } else {
      var id :| id in ids;
      var m := Above(ids - {id});
      n := if m <= id then id + 1 else m;
      forall x | x in ids ensures x < n { assert x == id || x in ids - {id}; }
    }
  }

  // ----- the failing runs ---------------------------------------------------------------------

  // The first transaction has locked a, the second has listed it and waits.
  lemma SecondWaits(w: World, before: seq<Step>, rows: map<nat, bool>, a: nat, c: nat) returns (steps: seq<Step>, v: World)
    requires Run(w, before, World(rows, map[])) && NoSkip(before) && Only(rows, {a})
    ensures Run(w, steps, v) && NoSkip(steps)
    ensures v == World(rows, map[1 := Off(a, Holding({a})), 2 := Off(c, Locking({a}, {}))])
  {
    steps, v := Lists(w, before, World(rows, map[]), 1, a, a);
    steps, v := Gets(w, steps, v, 1, a, a);
    steps, v := Lists(w, steps, v, 2, c, a);
  }

  // b is created, the first disables a, and the second passes it over.
  lemma SecondWakes(w: World, steps: seq<Step>, rows: map<nat, bool>, a: nat, b: nat, c: nat) returns (more: seq<Step>, v': World)
    requires Run(w, steps, World(rows, map[1 := Off(a, Holding({a})), 2 := Off(c, Locking({a}, {}))])) && NoSkip(steps)
    requires Only(rows, {a}) && b !in rows
    ensures Run(w, more, v') && NoSkip(more) && v' == World(rows[b := true][a := false], map[2 := Off(c, Holding({}))])
  {
    var v := World(rows, map[1 := Off(a, Holding({a})), 2 := Off(c, Locking({a}, {}))]);
    more, v' := FirstLeaves(w, steps, v, a, b);
    assert v'.txs == map[2 := Off(c, Locking({a}, {}))];
    more, v' := Gets(w, more, v', 2, c, a);
  }

  lemma FirstLeaves(w: World, steps: seq<Step>, v: World, a: nat, b: nat) returns (more: seq<Step>, v': World)
    requires Run(w, steps, v) && NoSkip(steps) && 1 in v.txs && v.txs[1] == Off(a, Holding({a})) && !HeldByOther(v, 1, a)
    requires Only(v.rows, {a}) && b !in v.rows
    ensures Run(w, more, v') && NoSkip(more) && v' == World(v.rows[b := true][a := false], v.txs - {1})
  {
    var u := v.(rows := v.rows[b := true]);
    more := Take(w, steps, v, Create(b), u);
    assert Active(u, b);
    forall x | x != 1 && HasLock(u, x, a) ensures false { assert HasLock(v, x, a); }
    more, v' := Writes(w, more, u, 1, a, {a}, b);
    u := World(v.rows[b := true][a := false], v.txs - {1});
    assert v'.txs - {1} == u.txs;
    more := Take(w, more, v', Commit(1), u);
    v' := u;
  }

  // The third has locked b, then c is created.
  lemma ThirdHolds(w: World, steps: seq<Step>, v: World, b: nat, c: nat) returns (more: seq<Step>, v': World)
    requires Run(w, steps, v) && NoSkip(steps) && v.txs == map[2 := Off(c, Holding({}))]
    requires Only(v.rows, {b}) && c !in v.rows
    ensures Run(w, more, v') && NoSkip(more)
    ensures v' == World(v.rows[c := true], map[2 := Off(c, Holding({})), 3 := Off(b, Holding({b}))])
  {
    more, v' := Lists(w, steps, v, 3, b, b);
    more, v' := Gets(w, more, v', 3, b, b);
    var u := World(v.rows[c := true], map[2 := Off(c, Holding({})), 3 := Off(b, Holding({b}))]);
    assert v'.txs == u.txs;
    more := Take(w, more, v', Create(c), u);
    v' := u;
  }

  // It disables b and, that still to be committed, the second disables c.
  lemma BothCommit(w: World, steps: seq<Step>, v: World, b: nat, c: nat) returns (more: seq<Step>, v': World)
    requires Run(w, steps, v) && NoSkip(steps) && Only(v.rows, {b, c}) && b != c
    requires v.txs == map[2 := Off(c, Holding({})), 3 := Off(b, Holding({b}))]
    ensures Run(w, more, v') && NoSkip(more) && !SomeActive(v')
  {
    assert Active(v, c) && Active(v, b);
    more, v' := Writes(w, steps, v, 3, b, {b}, c);
    more, v' := Writes(w, more, v', 2, c, {}, b);
    more, v' := CommitTwo(w, more, v', 3, b, 2, c);
  }

  lemma CommitTwo(w: World, steps: seq<Step>, v: World, tx: nat, b: nat, u: nat, c: nat) returns (more: seq<Step>, v': World)
    requires Run(w, steps, v) && tx != u && tx in v.txs && u in v.txs && Only(v.rows, {b, c})
    requires v.txs[tx].kind.Disable? && v.txs[tx].target == b && v.txs[tx].phase.Wrote?
    requires v.txs[u].kind.Disable? && v.txs[u].target == c && v.txs[u].phase.Wrote?
    ensures Run(w, more, v') && !SomeActive(v') && (NoSkip(steps) ==> NoSkip(more))
  {
    var m := World(v.rows[b := false], v.txs - {tx});
    more := Take(w, steps, v, Commit(tx), m);
    v' := World(m.rows[c := false], m.txs - {u});
    more := Take(w, more, m, Commit(u), v');
    forall id ensures !Active(v', id) { assert id in v.rows && v.rows[id] ==> id in {b, c}; }
  }

  /** A locking read that rows become active behind is not enough: from every roster with somebody active there is a
      run with two creations, every transaction locking first, that leaves nobody. */
  lemma StaleReadLeavesNobody(rows: map<nat, bool>) returns (steps: seq<Step>, w': World)
    requires SomeActive(World(rows, map[]))
    ensures Run(World(rows, map[]), steps, w') && NoSkip(steps) && !SomeActive(w')
  {
    var w := World(rows, map[]);
    var a: nat :| Active(w, a);
    var b := Above(rows.Keys);
    var rows1: map<nat, bool>;
    steps, rows1 := DisablesDown(w, [], rows, {a}, a);
    steps, w' := TwoArrive(w, steps, rows1, a, b, b + 1);
  }

  lemma TwoArrive(w: World, before: seq<Step>, rows: map<nat, bool>, a: nat, b: nat, c: nat) returns (steps: seq<Step>, w': World)
    requires Run(w, before, World(rows, map[])) && NoSkip(before) && Only(rows, {a}) && b !in rows && c !in rows && b != c
    ensures Run(w, steps, w') && NoSkip(steps) && !SomeActive(w')
  {
    var v: World;
    steps, v := SecondWaits(w, before, rows, a, c);
    steps, v := SecondWakes(w, steps, rows, a, b, c);
    steps, v := ThirdHolds(w, steps, v, b, c);
    steps, w' := BothCommit(w, steps, v, b, c);
  }

  // A transaction that does not lock.
  lemma Skips(w: World, steps: seq<Step>, v: World, tx: nat, target: nat) returns (more: seq<Step>, v': World)
    requires Run(w, steps, v) && tx !in v.txs
    ensures Run(w, more, v') && v' == v.(txs := v.txs[tx := Off(target, Holding({}))])
  {
    var u := v.(txs := v.txs[tx := Off(target, Begun)]);
    more := Take(w, steps, v, Begin(tx, Disable, target), u);
    v' := v.(txs := v.txs[tx := Off(target, Holding({}))]);
    assert SetPhase(u, tx, Holding({})) == v';
    more := Take(w, more, u, SkipLocks(tx), v');
  }

  /** Nor is the conditional write without the locking read: from every roster with two active admins there is a run
      that leaves nobody. */
  lemma WithoutLocksNobodyIsLeft(rows: map<nat, bool>, b: nat, c: nat) returns (steps: seq<Step>, w': World)
    requires b != c && Active(World(rows, map[]), b) && Active(World(rows, map[]), c)
    ensures Run(World(rows, map[]), steps, w') && !SomeActive(w')
  {
    var w := World(rows, map[]);
    var rows1: map<nat, bool>;
    steps, rows1 := DisablesDown(w, [], rows, {b, c}, b);
    steps, w' := TwoSkip(w, steps, rows1, b, c);
  }

  lemma TwoSkip(w: World, before: seq<Step>, rows: map<nat, bool>, b: nat, c: nat) returns (steps: seq<Step>, w': World)
    requires Run(w, before, World(rows, map[])) && Only(rows, {b, c}) && b != c
    ensures Run(w, steps, w') && !SomeActive(w')
  {
    var v: World;
    steps, v := Skips(w, before, World(rows, map[]), 1, b);
    steps, v := Skips(w, steps, v, 2, c);
    assert Active(v, b) && Active(v, c);
    steps, v := Writes(w, steps, v, 1, b, {}, c);
    steps, v := Writes(w, steps, v, 2, c, {}, b);
    steps, w' := CommitTwo(w, steps, v, 1, b, 2, c);
  }
}
