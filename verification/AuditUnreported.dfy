/** Why tamper evidence asks for countable tables: each number it excludes, stored without the key, lets a log
    that has lost rows verify, because the number to report comes out as 0. */
module AuditUnreported {
  import opened AuditChain
  import opened AuditEvidence

  // A keyless row numbered -1 on top of the retention base.
  function MinusOne(h: Head, t: int, ev: Event): Row {
    Row(-1, ev.(at := Time(t)), h.baseHash, Sha(h.baseHash, t, LegacyBody(ev)))
  }

  /** Under any valid unbroken anchor the whole log can be replaced by one keyless row numbered -1. */
  lemma TailMinusOneErasesLog(db: Db, floor: int, t: int, ev: Event, issued: set<Message>)
    requires HeadValid(db.head) && db.head.broken == 0 && floor <= db.head.seqNo
    requires -1 < db.head.seqNo && -1 <= db.head.legacyUntil && AllKnown(db, issued)
    ensures var erased := db.(rows := [MinusOne(db.head, t, ev)]);
            && Verify(erased, floor) == 0 && KeyedRows(erased) == []
            && AllKnown(erased, issued) && Ascending(erased.rows) && !CountableTables(erased)
  {
    var erased := db.(rows := [MinusOne(db.head, t, ev)]);
    VerifyZeroIff(erased, floor);
    assert LegacyCount(erased.rows[1..], db.head.legacyUntil) == 0;
  }

  /** Where pruning has left base -1 the log can be erased without a trace at all. */
  lemma BaseMinusOneErasesLog(db: Db, floor: int)
    requires HeadValid(db.head) && db.head.broken == 0 && floor <= db.head.seqNo && -1 < db.head.seqNo
    ensures Verify(db.(rows := []), floor) == 0 <==>
              db.head.baseSeq == -1 || Tail(db.head.baseSeq, db.head.baseHash) == Tail(db.head.seqNo, db.head.hash)
  {
    VerifyZeroIff(db.(rows := []), floor);
  }

  /** A prune leaves the log in that state exactly when the newest row it deletes is numbered -1. */
  lemma PruneLeavesMinusOneIff(db: Db, floor: int, cutoff: int, n: nat)
    requires Countable(db) && HeadValid(db.head) && Verify(db, floor) == 0 && -1 < db.head.seqNo
    requires 0 < n == DueRun(db.rows, cutoff, db.head.seqNo)
    ensures var pruned := PruneTx(db, floor, cutoff);
            && HeadValid(pruned.head) && pruned.rows == db.rows[n..]
            && (Verify(pruned.(rows := []), floor) == 0 <==> db.rows[n - 1].seqNo == -1)
  {
    VerifyZeroCountable(db, floor);
    var pruned := PruneTx(db, floor, cutoff);
    assert db.rows[..n][n - 1] == db.rows[n - 1];
    AfterIsSuffix(db.rows, n);
    assert Due(db.rows[n - 1], cutoff, db.head.seqNo);
    BaseMinusOneErasesLog(pruned, floor);
  }

  /** Such a row can stand in any log whose due part ends in a v1 row with room for that number. */
  lemma MinusOneCanBeDue(db: Db, floor: int, cutoff: int, n: nat)
    requires Countable(db) && HeadValid(db.head) && Verify(db, floor) == 0 && -1 < db.head.seqNo
    requires 0 < n == DueRun(db.rows, cutoff, db.head.seqNo) && n < |db.rows|
    requires db.rows[n - 1].seqNo <= db.head.legacyUntil && -1 <= db.head.legacyUntil
    requires (n > 1 ==> db.rows[n - 2].seqNo < -1) && -1 < db.rows[n].seqNo
    ensures var renumbered := db.(rows := db.rows[n - 1 := db.rows[n - 1].(seqNo := -1)]);
            && Countable(renumbered) && Verify(renumbered, floor) == 0
            && DueRun(renumbered.rows, cutoff, db.head.seqNo) == n && renumbered.rows[n - 1].seqNo == -1
  {
    var rows := db.rows[n - 1 := db.rows[n - 1].(seqNo := -1)];
    RenumberAscending(db.rows, n - 1, -1);
    LegacyNumbersNotPinned(db, floor, n - 1, -1);
    assert Due(db.rows[n - 1], cutoff, db.head.seqNo);
    forall i | 0 <= i < n ensures Due(rows[i], cutoff, db.head.seqNo) { assert Due(db.rows[i], cutoff, db.head.seqNo); }
    assert !Due(rows[n], cutoff, db.head.seqNo);
  }

  // The rows from n on behind a row numbered 0 that carries the hash before them.
  function BehindZero(rows: seq<Row>, n: nat, ev: Event, prev: Digest): seq<Row>
    requires n < |rows|
  {
    [Row(0, ev, prev, rows[n].prev)] + rows[n..]
  }

  /** A row numbered 0 that carries the hash before row n hides that the first n rows are gone. */
  lemma RowZeroHidesDeletion(db: Db, floor: int, n: nat, ev: Event, prev: Digest, issued: set<Message>)
    requires Countable(db) && HeadValid(db.head) && Verify(db, floor) == 0 && n < |db.rows| && db.rows[n].seqNo > 0
    requires AllKnown(db, issued) && Known(prev, issued)
    ensures var cut := db.(rows := BehindZero(db.rows, n, ev, prev));
            Verify(cut, floor) == 0 && AllKnown(cut, issued) && Ascending(cut.rows) && !CountableTables(cut)
  {
    var cut := db.(rows := BehindZero(db.rows, n, ev, prev));
    VerifyZeroCountable(db, floor);
    ZeroChained(db.rows, db.head.baseHash, db.head.legacyUntil, n, cut.rows[0]);
    ZeroTail(db.rows, n, ev, prev);
    VerifyZeroIff(cut, floor);
    ZeroKnown(db, n, ev, prev, issued);
    ZeroAscending(db.rows, n, ev, prev);
  }

  lemma ZeroAscending(rows: seq<Row>, n: nat, ev: Event, prev: Digest)
    requires Ascending(rows) && n < |rows| && rows[n].seqNo > 0
    ensures Ascending(BehindZero(rows, n, ev, prev))
  {
    forall i | n < i < |rows| ensures rows[i].seqNo > 0 { assert rows[n].seqNo < rows[i].seqNo; }
  }

  lemma ZeroTail(rows: seq<Row>, n: nat, ev: Event, prev: Digest)
    requires n < |rows|
    ensures ReadTail(BehindZero(rows, n, ev, prev)) == ReadTail(rows) && BehindZero(rows, n, ev, prev)[0].seqNo == 0
  {
  }

  lemma ZeroKnown(db: Db, n: nat, ev: Event, prev: Digest, issued: set<Message>)
    requires n < |db.rows| && AllKnown(db, issued) && Known(prev, issued)
    ensures AllKnown(db.(rows := BehindZero(db.rows, n, ev, prev)), issued)
  {
    var cut := BehindZero(db.rows, n, ev, prev);
    forall i | 0 <= i < |cut| ensures Known(cut[i].prev, issued) && Known(cut[i].hash, issued) {
      if i > 0 { assert cut[i] == db.rows[n + i - 1]; }
    }
  }

  lemma ZeroChained(rows: seq<Row>, start: Digest, legacyUntil: int, n: nat, zero: Row)
    requires Chained(rows, start, legacyUntil) && n < |rows| && zero.seqNo == 0 && zero.hash == rows[n].prev
    ensures ChainedButZero([zero] + rows[n..], start, legacyUntil)
  {
    var cut := [zero] + rows[n..];
    forall i | 0 <= i < |cut| ensures cut[i].seqNo == 0 || ValidAt(cut, start, legacyUntil, i) {
      if i > 0 { assert cut[i] == rows[n + i - 1] && ValidAt(rows, start, legacyUntil, n + i - 1); }
    }
  }

  /** Sealing records a break over every tail but three: one numbered 0, one the caller vouches for as v1, and one
      above an anchor with legacy_until -1. */
  lemma SealRecordsBreakIff(db: Db, legacyMigrated: bool)
    requires !IsSealed(db.head)
    ensures var h, top := db.head, ReadTail(db.rows).seqNo;
            && HeadValid(SealTx(db, legacyMigrated).head)
            && (SealTx(db, legacyMigrated).head.broken != 0 <==>
                top != 0 && (h.present ==> if top > h.legacyUntil then h.legacyUntil != -1 else !legacyMigrated))
  {
  }

  // The first n rows under the anchor with its MAC blanked and legacy_until -1.
  function Cut(db: Db, n: nat): Db
    requires n <= |db.rows|
  {
    Db(db.rows[..n], db.head.(mac := BLANK, legacyUntil := -1))
  }

  // A log that was keyed from its first row and never pruned.
  ghost predicate KeyedThroughout(db: Db) {
    && db.head.baseHash == BLANK
    && forall i :: 0 <= i < |db.rows| ==> db.rows[i].seqNo > 0 && db.rows[i].seqNo > db.head.legacyUntil
  }

  lemma CutChained(db: Db, floor: int, n: nat)
    requires Countable(db) && HeadValid(db.head) && Verify(db, floor) == 0 && n <= |db.rows| && KeyedThroughout(db)
    ensures Chained(db.rows[..n], BLANK, -1)
  {
    VerifyZeroCountable(db, floor);
    ChainedPrefix(db.rows, BLANK, db.head.legacyUntil, n);
    forall i | 0 <= i < n ensures ValidAt(db.rows[..n], BLANK, -1, i) {
      assert ValidAt(db.rows[..n], BLANK, db.head.legacyUntil, i);
    }
  }

  /** Of a log that was keyed from the first row and never pruned, any leading part verifies under an anchor with its
      MAC blanked and legacy_until -1, whatever the floor. */
  lemma LegacyMinusOneHidesTruncation(db: Db, floor: int, f: int, n: nat, issued: set<Message>)
    requires Countable(db) && HeadValid(db.head) && Verify(db, floor) == 0 && 0 < n <= |db.rows| && KeyedThroughout(db)
    requires AllKnown(db, issued)
    ensures Verify(Cut(db, n), f) == 0 && AllKnown(Cut(db, n), issued) && !CountableTables(Cut(db, n))
  {
    CutChained(db, floor, n);
    VerifyZeroIff(Cut(db, n), f);
  }

  /** Sealing then signs that part as the whole log, with no break, for every mark up to its tail. */
  lemma SealedTruncationVerifies(db: Db, floor: int, f: int, n: nat)
    requires Countable(db) && HeadValid(db.head) && Verify(db, floor) == 0 && 0 < n <= |db.rows| && KeyedThroughout(db)
    ensures var sealed := SealTx(Cut(db, n), false);
            && HeadValid(sealed.head) && sealed.head.broken == 0 && KeyedRows(sealed) == db.rows[..n]
            && (Verify(sealed, f) == 0 <==> f <= db.rows[n - 1].seqNo)
  {
    var sealed := SealTx(Cut(db, n), false);
    SealRecordsBreakIff(Cut(db, n), false);
    CutChained(db, floor, n);
    VerifyZeroIff(sealed, f);
    assert LegacyCount(sealed.rows, -1) == 0;
  }
}
