/** Honest runs of the audit log: several processes append, seal, prune and verify in any interleaving.
    A verifier reads its process's high-water mark first and its snapshot later; marks are raised some
    time after the commit they record. */
module AuditRuns {
  import opened AuditChain
  import opened AuditEvidence
  import opened AuditVerdict

  // ----- Prune ---------------------------------------------------------------------

  ghost predicate Older(r: Row, cutoff: int) {
    r.ev.at.Time? && r.ev.at.t < cutoff
  }

  // n is the length of the longest leading run older than cutoff that spares the newest row.
  ghost predicate LongestRun(rows: seq<Row>, cutoff: int, n: int) {
    && 0 <= n <= |rows| && (rows != [] ==> n < |rows|)
    && (forall i :: 0 <= i < n ==> Older(rows[i], cutoff))
    && (n + 1 < |rows| ==> !Older(rows[n], cutoff))
  }

  /** On an intact log Prune removes exactly the longest leading run older than the cutoff, never the newest
      row; what remains is unmodified and verifies against every mark f the log verified against before. */
  lemma PruneExact(db: Db, floor: int, cutoff: int, f: int) returns (n: nat)
    requires Countable(db) && Verify(db, floor) == 0 && Verify(db, f) == 0
    ensures LongestRun(db.rows, cutoff, n)
    ensures PruneTx(db, floor, cutoff)
         == if n == 0 then db
            else Db(db.rows[n..], Sealed(db.head.(baseSeq := db.rows[n - 1].seqNo, baseHash := db.rows[n - 1].hash)))
    ensures Countable(PruneTx(db, floor, cutoff)) && Verify(PruneTx(db, floor, cutoff), f) == 0
  {
    if PruneTx(db, floor, cutoff) != db {
      n := PruneShape(db, floor, cutoff);
      PrunedVerifies(db, n, f);
    } else {
      n := 0;
    }
    RunIsLongest(db, floor, cutoff, n);
  }

  lemma RunIsLongest(db: Db, floor: int, cutoff: int, n: nat)
    requires Countable(db) && Verify(db, floor) == 0
    requires if PruneTx(db, floor, cutoff) == db then n == 0 else n == DueRun(db.rows, cutoff, db.head.seqNo)
    ensures LongestRun(db.rows, cutoff, n)
  {
    VerifyZeroCountable(db, floor);
    if PruneTx(db, floor, cutoff) == db {
      NothingDue(db, floor, cutoff);
    } else {
      assert db.rows[|db.rows| - 1].seqNo == db.head.seqNo;
      assert n + 1 < |db.rows| ==> db.rows[n].seqNo < db.rows[|db.rows| - 1].seqNo;
    }
  }

  lemma PrunedVerifies(db: Db, n: nat, f: int)
    requires Countable(db) && HeadValid(db.head) && Verify(db, f) == 0 && 0 < n < |db.rows|
    ensures var db' := Db(db.rows[n..], Sealed(db.head.(baseSeq := db.rows[n - 1].seqNo, baseHash := db.rows[n - 1].hash)));
            Countable(db') && Verify(db', f) == 0
  {
    VerifyZeroCountable(db, f);
    ChainedSuffix(db.rows, db.head.baseHash, db.head.legacyUntil, n);
    var db' := Db(db.rows[n..], Sealed(db.head.(baseSeq := db.rows[n - 1].seqNo, baseHash := db.rows[n - 1].hash)));
    assert ReadTail(db'.rows) == ReadTail(db.rows);
    VerifyZeroCountable(db', f);
  }

  lemma NothingDue(db: Db, floor: int, cutoff: int)
    requires Countable(db) && Verify(db, floor) == 0 && PruneTx(db, floor, cutoff) == db
    ensures 1 < |db.rows| ==> !Older(db.rows[0], cutoff)
  {
    VerifyZeroCountable(db, floor);
    var n := DueRun(db.rows, cutoff, db.head.seqNo);
    if n > 0 {
      AfterIsSuffix(db.rows, n);
    }
  }

  // ----- evidence is sticky -----------------------------------------------------------

  datatype HonestStep =
    | HonestAppend(floor: int, seqNo: int, t: int, ev: Event)
    | HonestSeal(legacyMigrated: bool)
    | HonestPrune(floor: int, cutoff: int)

  ghost function Honest(db: Db, s: HonestStep): Db {
    match s
    case HonestAppend(floor, seqNo, t, ev) => AppendTx(db, floor, seqNo, t, ev)
    case HonestSeal(legacyMigrated) => SealTx(db, legacyMigrated)
    case HonestPrune(floor, cutoff) => PruneTx(db, floor, cutoff)
  }

  ghost function HonestRun(db: Db, steps: seq<HonestStep>): Db
    decreases |steps|
  {
    if steps == [] then db else HonestRun(Honest(db, steps[0]), steps[1..])
  }

  /** Once a valid anchor records a break, no honest transaction clears or changes it, whatever the tables
      hold: every later verdict is nonzero for every mark, and no row ever leaves the log again. */
  lemma {:induction false} BreakIsSticky(db: Db, steps: seq<HonestStep>, floor: int)
    requires HeadValid(db.head) && db.head.broken != 0
    ensures var db' := HonestRun(db, steps);
            && HeadValid(db'.head) && db'.head.broken == db.head.broken
            && Verify(db', floor) != 0
            && (forall r :: r in db.rows ==> r in db'.rows)
    decreases |steps|
  {
    VerifyZeroIff(db, floor);
    if steps != [] {
      var db1 := Honest(db, steps[0]);
      match steps[0] {
        case HonestAppend(f, seqNo, t, ev) =>
          if !HasSeq(db.rows, seqNo) { InsertKeeps(db.rows, NewRow(db.rows, seqNo, t, ev)); }
        case HonestSeal(_) =>
        case HonestPrune(f, _) => VerifyZeroIff(db, f);
      }
      BreakIsSticky(db1, steps[1..], floor);
    }
  }

  lemma {:induction false} InsertKeeps(rows: seq<Row>, r: Row)
    ensures forall x :: x in rows ==> x in Insert(rows, r)
    decreases |rows|
  {
    if rows != [] && rows[|rows| - 1].seqNo >= r.seqNo {
      InsertKeeps(rows[..|rows| - 1], r);
      assert rows == rows[..|rows| - 1] + [rows[|rows| - 1]];
    }
  }

  /** A break the anchor shows at an Append is in the anchor that Append writes. */
  lemma AppendRecordsBreak(db: Db, floor: int, seqNo: int, t: int, ev: Event)
    requires !HasSeq(db.rows, seqNo)
    requires AnchorBreak(db.head, ReadTail(db.rows), floor, false) != 0
    ensures var db' := AppendTx(db, floor, seqNo, t, ev);
            HeadValid(db'.head) && db'.head.broken != 0 && forall f :: Verify(db', f) != 0
  {
    forall f ensures Verify(AppendTx(db, floor, seqNo, t, ev), f) != 0 {
      VerifyZeroIff(AppendTx(db, floor, seqNo, t, ev), f);
    }
  }

  // ----- no false alarm ------------------------------------------------------------------

  // marks: high-water mark per process. raises: committed numbers still to be raised, per process.
  // loaded: the mark each running verifier has read. verdicts: what finished verifications and
  // prunes have reported.
  datatype System = System(db: Db, lastSeq: int, marks: map<int, int>, raises: set<(int, int)>,
                           loaded: map<int, int>, verdicts: set<int>)

  datatype Action =
    | AppendCommit(p: int, seqNo: int, t: int, ev: Event)
    | SealCommit(p: int)
    | PruneCommit(p: int, cutoff: int)
    | Raise(p: int, seqNo: int)
    | VerifyBegin(v: int, p: int)
    | VerifyEnd(v: int, p: int)
    | Restart(p: int)

  ghost function Mark(s: System, p: int): int {
    if p in s.marks then s.marks[p] else 0
  }

  ghost function Observed(s: System, p: int): set<(int, int)> {
    if HeadValid(s.db.head) then s.raises + {(p, s.db.head.seqNo)} else s.raises
  }

  ghost predicate CanAct(s: System, a: Action) {
    match a
    case AppendCommit(_, seqNo, _, _) => seqNo > s.lastSeq
    case Raise(p, seqNo) => (p, seqNo) in s.raises
    case VerifyEnd(v, _) => v in s.loaded
    case _ => true
  }

  ghost function Act(s: System, a: Action): System {
    match a
    case AppendCommit(p, seqNo, t, ev) =>
      s.(db := AppendTx(s.db, Mark(s, p), seqNo, t, ev), lastSeq := seqNo, raises := s.raises + {(p, seqNo)})
    case SealCommit(p) =>
      s.(db := SealTx(s.db, false),
         raises := if IsSealed(s.db.head) then Observed(s, p) else s.raises + {(p, ReadTail(s.db.rows).seqNo)})
    case PruneCommit(p, cutoff) =>
      s.(db := PruneTx(s.db, Mark(s, p), cutoff), raises := Observed(s, p),
         verdicts := s.verdicts + {Verify(s.db, Mark(s, p))})
    case Raise(p, seqNo) => s.(marks := s.marks[p := Max(Mark(s, p), seqNo)])
    case VerifyBegin(v, p) => s.(loaded := s.loaded[v := Mark(s, p)])
    case VerifyEnd(v, p) =>
      if v in s.loaded
      then s.(raises := Observed(s, p), loaded := s.loaded - {v}, verdicts := s.verdicts + {Verify(s.db, s.loaded[v])})
      else s
    case Restart(p) => s.(marks := s.marks - {p})
  }

  // A fresh installation, or a well-formed v1 log sealed at cut-over. A cut-over that was rolled back and
  // retried may have raised marks up to the tail already.
  ghost predicate Start(s: System) {
    && (forall p :: p in s.marks ==> s.marks[p] <= s.lastSeq) && s.raises == {} && s.loaded == map[] && s.verdicts == {}
    && s.lastSeq == ReadTail(s.db.rows).seqNo && Ascending(s.db.rows) && (forall i :: 0 <= i < |s.db.rows| ==> s.db.rows[i].seqNo > 0)
    && (|| s.db == Db([], NO_HEAD.(present := true))
        || (&& s.db == SealTx(Db(s.db.rows, NO_HEAD.(present := true, legacyUntil := s.lastSeq)), true)
            && Chained(s.db.rows, BLANK, s.lastSeq)))
  }

  ghost predicate SystemRun(s: System, actions: seq<Action>, s': System)
    decreases |actions|
  {
    if actions == [] then s == s'
    else CanAct(s, actions[0]) && SystemRun(Act(s, actions[0]), actions[1..], s')
  }

  // The log verifies against its own tail, and no number anyone holds is beyond that tail.
  ghost predicate Calm(s: System) {
    var top := ReadTail(s.db.rows).seqNo;
    && Countable(s.db) && Verify(s.db, top) == 0
    && 0 <= top <= s.lastSeq && s.db.head.legacyUntil <= s.lastSeq
    && (s.db.rows == [] ==> s.db.head.baseHash == BLANK && s.db.head.baseSeq == 0)
    && (forall p :: p in s.marks ==> s.marks[p] <= top)
    && (forall r :: r in s.raises ==> r.1 <= top)
    && (forall v :: v in s.loaded ==> s.loaded[v] <= top)
    && s.verdicts <= {0}
  }

  lemma CleanBelowTail(db: Db, floor: int)
    requires Countable(db) && Verify(db, ReadTail(db.rows).seqNo) == 0 && floor <= ReadTail(db.rows).seqNo
    ensures Verify(db, floor) == 0
  {
    VerifyZeroCountable(db, ReadTail(db.rows).seqNo);
    VerifyZeroCountable(db, floor);
  }

  lemma HeadAtTail(s: System)
    requires Calm(s) && IsSealed(s.db.head)
    ensures HeadValid(s.db.head) && s.db.head.broken == 0
    ensures Tail(s.db.head.seqNo, s.db.head.hash) == ReadTail(s.db.rows)
  {
    VerifyZeroCountable(s.db, ReadTail(s.db.rows).seqNo);
  }

  lemma AppendStaysClean(s: System, p: int, seqNo: int, t: int, ev: Event)
    requires Calm(s) && seqNo > s.lastSeq
    ensures var db := AppendTx(s.db, Mark(s, p), seqNo, t, ev);
            Countable(db) && Verify(db, seqNo) == 0 && ReadTail(db.rows).seqNo == seqNo
  {
    var rows, h := s.db.rows, s.db.head;
    var r := NewRow(rows, seqNo, t, ev);
    var db := AppendTx(s.db, Mark(s, p), seqNo, t, ev);
    VerifyZeroCountable(s.db, ReadTail(rows).seqNo);
    forall i | 0 <= i < |rows| ensures rows[i].seqNo < seqNo {
      assert rows[i].seqNo <= rows[|rows| - 1].seqNo;
    }
    InsertAtEnd(rows, r);
    assert db.head.broken == 0 && db.head.baseHash == h.baseHash && HeadValid(db.head);
    ChainedMore(rows, h.baseHash, h.legacyUntil, r);
    VerifyZeroCountable(db, seqNo);
  }

  lemma ChainedMore(rows: seq<Row>, start: Digest, legacyUntil: int, r: Row)
    requires Chained(rows, start, legacyUntil) && ValidAt(rows + [r], start, legacyUntil, |rows|)
    ensures Chained(rows + [r], start, legacyUntil)
  {
    forall i | 0 <= i < |rows + [r]| ensures ValidAt(rows + [r], start, legacyUntil, i) {
      if i < |rows| { assert ValidAt(rows, start, legacyUntil, i); }
    }
  }

  lemma SealStaysClean(s: System)
    requires Calm(s) && !IsSealed(s.db.head)
    ensures var db := SealTx(s.db, false);
            Countable(db) && db.rows == s.db.rows == [] && Verify(db, 0) == 0
  {
    VerifyZeroCountable(s.db, ReadTail(s.db.rows).seqNo);
    VerifyZeroCountable(SealTx(s.db, false), 0);
  }

  lemma SuffixKeepsTail(rows: seq<Row>, n: nat)
    requires n < |rows| || rows == []
    ensures rows != [] ==> rows[n..] != [] && ReadTail(rows[n..]) == ReadTail(rows)
  {
  }

  // Clean against the tail of db, with that tail.
  ghost predicate CleanLike(db: Db, db': Db) {
    && Countable(db') && Verify(db', ReadTail(db.rows).seqNo) == 0
    && ReadTail(db'.rows) == ReadTail(db.rows) && db'.head.legacyUntil == db.head.legacyUntil
    && (db'.rows == [] ==> db' == db)
  }

  lemma CalmLike(s: System, s': System)
    requires Calm(s) && CleanLike(s.db, s'.db) && s'.verdicts <= {0}
    requires s' == s.(db := s'.db, raises := s'.raises, verdicts := s'.verdicts)
    requires forall r :: r in s'.raises ==> r.1 <= ReadTail(s.db.rows).seqNo
    ensures Calm(s')
  {
  }

  lemma PruneStaysClean(s: System, p: int, cutoff: int)
    requires Calm(s)
    ensures CleanLike(s.db, PruneTx(s.db, Mark(s, p), cutoff)) && Verify(s.db, Mark(s, p)) == 0
  {
    CleanBelowTail(s.db, Mark(s, p));
    var n := PruneExact(s.db, Mark(s, p), cutoff, ReadTail(s.db.rows).seqNo);
    SuffixKeepsTail(s.db.rows, n);
  }

  lemma AppendKeepsCalm(s: System, a: Action)
    requires Calm(s) && CanAct(s, a) && a.AppendCommit?
    ensures Calm(Act(s, a))
  {
    AppendStaysClean(s, a.p, a.seqNo, a.t, a.ev);
  }

  lemma SealKeepsCalm(s: System, a: Action)
    requires Calm(s) && a.SealCommit?
    ensures Calm(Act(s, a))
  {
    if IsSealed(s.db.head) { HeadAtTail(s); } else { SealStaysClean(s); }
  }

  lemma PruneKeepsCalm(s: System, a: Action)
    requires Calm(s) && a.PruneCommit?
    ensures Calm(Act(s, a))
  {
    if HeadValid(s.db.head) { HeadAtTail(s); }
    PruneStaysClean(s, a.p, a.cutoff);
    CalmLike(s, Act(s, a));
  }

  lemma VerifyKeepsCalm(s: System, a: Action)
    requires Calm(s) && CanAct(s, a) && a.VerifyEnd?
    ensures Calm(Act(s, a))
  {
    if HeadValid(s.db.head) { HeadAtTail(s); }
    CleanBelowTail(s.db, s.loaded[a.v]);
  }

  lemma ActionKeepsCalm(s: System, a: Action)
    requires Calm(s) && CanAct(s, a)
    ensures Calm(Act(s, a))
  {
    match a {
      case AppendCommit(_, _, _, _) => AppendKeepsCalm(s, a);
      case SealCommit(_) => SealKeepsCalm(s, a);
      case PruneCommit(_, _) => PruneKeepsCalm(s, a);
      case VerifyEnd(_, _) => VerifyKeepsCalm(s, a);
      case _ =>
    }
  }

  lemma StartIsCalm(s: System)
    requires Start(s)
    ensures Calm(s)
  {
    VerifyZeroCountable(s.db, ReadTail(s.db.rows).seqNo);
  }

  lemma {:induction false} RunKeepsCalm(s: System, actions: seq<Action>, s': System)
    requires Calm(s) && SystemRun(s, actions, s')
    ensures Calm(s')
    decreases |actions|
  {
    if actions != [] {
      ActionKeepsCalm(s, actions[0]);
      RunKeepsCalm(Act(s, actions[0]), actions[1..], s');
    }
  }

  /** No false alarm: whatever the interleaving, every finished verification and every prune reported 0, and
      so would any verifier still holding the mark it read earlier. */
  lemma NoFalseAlarm(s: System, actions: seq<Action>, s': System)
    requires Start(s) && SystemRun(s, actions, s')
    ensures s'.verdicts <= {0}
    ensures forall v :: v in s'.loaded ==> Verify(s'.db, s'.loaded[v]) == 0
    ensures forall p :: Verify(s'.db, Mark(s', p)) == 0
  {
    StartIsCalm(s);
    RunKeepsCalm(s, actions, s');
    forall v | v in s'.loaded ensures Verify(s'.db, s'.loaded[v]) == 0 {
      CleanBelowTail(s'.db, s'.loaded[v]);
    }
    forall p ensures Verify(s'.db, Mark(s', p)) == 0 {
      CleanBelowTail(s'.db, Mark(s', p));
    }
  }

  /** The order of the two reads matters: with the mark read after the snapshot, an Append committing in
      between is reported as a rollback. */
  lemma LateMarkRaisesFalseAlarm(t: int, ev: Event)
    ensures var one := AppendTx(Db([], NO_HEAD.(present := true)), 0, 1, t, ev);
            var two := AppendTx(one, 1, 2, t, ev);
            Verify(one, 1) == 0 && Verify(two, 2) == 0 && Verify(one, 2) != 0
  {
    var r := NewRow([], 1, t, ev);
    var one := AppendTx(Db([], NO_HEAD.(present := true)), 0, 1, t, ev);
    assert one.rows == [r] && HeadValid(one.head);
    VerifyZeroIff(one, 1);
    VerifyZeroIff(one, 2);
    var two := AppendTx(one, 1, 2, t, ev);
    var r2 := NewRow(one.rows, 2, t, ev);
    assert !HasSeq(one.rows, 2);
    InsertAtEnd(one.rows, r2);
    assert two.rows == [r, r2] && HeadValid(two.head);
    VerifyZeroIff(two, 2);
  }

  // ----- what a process does, undisturbed --------------------------------------------------------

  /** After its Append a process raises its mark to the number it wrote, and the log is what that Append made of it. */
  lemma AppendTurn(s: System, p: int, seqNo: int, t: int, ev: Event)
    requires seqNo > s.lastSeq
    ensures CanAct(s, AppendCommit(p, seqNo, t, ev))
    ensures var s1 := Act(s, AppendCommit(p, seqNo, t, ev));
            && s1.db == AppendTx(s.db, Mark(s, p), seqNo, t, ev) && s1.lastSeq == seqNo && s1.marks == s.marks
            && s1.loaded == s.loaded && s1.verdicts == s.verdicts && CanAct(s1, Raise(p, seqNo))
            && Act(s1, Raise(p, seqNo)) == s1.(marks := s.marks[p := if Mark(s, p) < seqNo then seqNo else Mark(s, p)])
  {
  }

  /** A verification reads the mark of its process, reports on the log against it, and lets a valid anchor raise it. */
  lemma VerifyTurn(s: System, v: int, p: int)
    ensures CanAct(s, VerifyBegin(v, p))
    ensures var s1 := Act(s, VerifyBegin(v, p));
            && s1 == s.(loaded := s.loaded[v := Mark(s, p)]) && CanAct(s1, VerifyEnd(v, p))
            && Ends(s, Act(s1, VerifyEnd(v, p)), p) && Act(s1, VerifyEnd(v, p)).db == s.db
            && Act(s1, VerifyEnd(v, p)).loaded == s.loaded - {v}
  {
    assert s.loaded[v := Mark(s, p)] - {v} == s.loaded - {v};
  }

  // The verdict against p's mark is reported and a valid anchor's number is about to raise the mark.
  ghost predicate Ends(s: System, s': System, p: int) {
    && s'.verdicts == s.verdicts + {Verify(s.db, if p in s.marks then s.marks[p] else 0)}
    && s'.raises == (if HeadValid(s.db.head) then s.raises + {(p, s.db.head.seqNo)} else s.raises)
    && s'.marks == s.marks && s'.lastSeq == s.lastSeq
  }

  /** A prune reports the same way and prunes by it; sealing lets the number it sealed, or an anchor it finds valid,
      raise the mark; only a restart forgets it. */
  lemma OtherTurns(s: System, p: int, cutoff: int)
    ensures CanAct(s, PruneCommit(p, cutoff)) && CanAct(s, SealCommit(p)) && CanAct(s, Restart(p))
    ensures Ends(s, Act(s, PruneCommit(p, cutoff)), p) && Act(s, PruneCommit(p, cutoff)).loaded == s.loaded
    ensures Act(s, PruneCommit(p, cutoff)).db == PruneTx(s.db, Mark(s, p), cutoff)
    ensures Act(s, SealCommit(p))
         == s.(db := SealTx(s.db, false), raises := Act(s, SealCommit(p)).raises)
    ensures IsSealed(s.db.head) ==>
              Act(s, SealCommit(p)).raises == if HeadValid(s.db.head) then s.raises + {(p, s.db.head.seqNo)} else s.raises
    ensures !IsSealed(s.db.head) ==> Act(s, SealCommit(p)).raises == s.raises + {(p, LastRow(s.db.rows).seqNo)}
    ensures Act(s, Restart(p)) == s.(marks := s.marks - {p}) && Mark(Act(s, Restart(p)), p) == 0
  {
  }

  /** A mark only rises while its process lives, whatever the others do. */
  lemma {:induction false} MarksOnlyRise(s: System, actions: seq<Action>, s': System, p: int)
    requires SystemRun(s, actions, s') && forall i :: 0 <= i < |actions| ==> actions[i] != Restart(p)
    ensures p in s.marks ==> p in s'.marks && s.marks[p] <= s'.marks[p]
    decreases |actions|
  {
    if actions != [] { MarksOnlyRise(Act(s, actions[0]), actions[1..], s', p); }
  }

  /** So a log rolled back below what a living process wrote or saw is reported to it, and recorded by its next Append. */
  lemma RollbackIsReported(s: System, p: int, seqNo: int, actions: seq<Action>, s': System, db: Db)
    requires p in s.marks && seqNo <= s.marks[p] && SystemRun(s, actions, s')
    requires forall i :: 0 <= i < |actions| ==> actions[i] != Restart(p)
    requires HeadValid(db.head) && db.head.seqNo < seqNo && db.head.seqNo != -1
    ensures Verify(db, Mark(s', p)) != 0
    ensures forall n, t, ev :: !HasSeq(db.rows, n) ==> AppendTx(db, Mark(s', p), n, t, ev).head.broken != 0
  {
    MarksOnlyRise(s, actions, s', p);
    VerifyZeroIff(db, Mark(s', p));
  }
}
