/** What Append stores and what VerifyChain reports, column by column: which row is written, which row is intact, and
    which of the broken numbers the verdict is. */
module AuditVerdict {
  import opened AuditChain

  // ----- the row an Append writes ---------------------------------------------------------

  // The event as given, at the instant t, on top of prev.
  ghost predicate Records(r: Row, seqNo: int, t: int, ev: Event, prev: Digest) {
    && r.seqNo == seqNo && r.prev == prev
    && r.ev.at == Time(t) && r.ev.eventType == ev.eventType && r.ev.actor == ev.actor && r.ev.target == ev.target
    && r.ev.details == ev.details
    && r.hash == Mac(EntryMsg(prev, seqNo, t, ev.eventType, ev.actor, ev.target, ev.details))
  }

  // Exactly one row more, the others as they were.
  ghost predicate OneRowMore(rows: seq<Row>, rows': seq<Row>, r: Row) {
    multiset(rows') == multiset(rows) + multiset{r} && (Ascending(rows) ==> Ascending(rows'))
  }

  lemma {:induction false} InsertAddsOne(rows: seq<Row>, r: Row)
    ensures multiset(Insert(rows, r)) == multiset(rows) + multiset{r}
    decreases |rows|
  {
    var n := |rows| - 1;
    if rows != [] && rows[n].seqNo >= r.seqNo {
      InsertAddsOne(rows[..n], r);
      assert rows == rows[..n] + [rows[n]];
    }
  }

  lemma {:induction false} InsertAscends(rows: seq<Row>, r: Row)
    requires Ascending(rows) && !HasSeq(rows, r.seqNo)
    ensures Ascending(Insert(rows, r))
    decreases |rows|
  {
    var n := |rows| - 1;
    if rows != [] && rows[n].seqNo >= r.seqNo {
      InsertAscends(rows[..n], r);
      InsertedBelow(rows[..n], r, rows[n].seqNo);
    }
  }

  lemma {:induction false} InsertedBelow(rows: seq<Row>, r: Row, bound: int)
    requires r.seqNo < bound && forall i :: 0 <= i < |rows| ==> rows[i].seqNo < bound
    ensures forall i :: 0 <= i < |Insert(rows, r)| ==> Insert(rows, r)[i].seqNo < bound
    decreases |rows|
  {
    if rows != [] && rows[|rows| - 1].seqNo >= r.seqNo { InsertedBelow(rows[..|rows| - 1], r, bound); }
  }

  // ----- what is intact -----------------------------------------------------------------------

  // An anchor under a MAC over all its columns, the retention base included where there is one.
  ghost predicate Authentic(h: Head) {
    h.present && h.mac == Mac(if h.baseSeq == 0 && h.baseHash == Text("")
                              then HeadMsg1(h.legacyUntil, h.seqNo, h.hash, h.broken)
                              else HeadMsg2(h.legacyUntil, h.seqNo, h.hash, h.broken, h.baseSeq, h.baseHash))
  }

  // A row on top of the digest previous: its own digest is that of its columns, keyed above legacy_until.
  ghost predicate Intact(r: Row, previous: Digest, legacyUntil: int) {
    && r.prev == previous && r.ev.at.Time?
    && (r.seqNo <= legacyUntil ==>
          r.hash == Sha(previous, r.ev.at.t, r.ev.eventType + "\n" + r.ev.actor + "\n" + r.ev.target + "\n" + r.ev.details))
    && (r.seqNo > legacyUntil ==>
          r.hash == Mac(EntryMsg(previous, r.seqNo, r.ev.at.t, r.ev.eventType, r.ev.actor, r.ev.target, r.ev.details)))
  }

  // What the oldest row must stand on.
  ghost function Ground(h: Head): Tail {
    if Authentic(h) then Tail(h.baseSeq, h.baseHash) else Tail(0, Text(""))
  }

  // Row i and the one before it.
  ghost predicate IntactAt(db: Db, i: int)
    requires 0 <= i < |db.rows|
  {
    Intact(db.rows[i], if i == 0 then Ground(db.head).hash else db.rows[i - 1].hash, db.head.legacyUntil)
  }

  // The newest row, or the ground when there is none.
  ghost function Newest(db: Db): Tail {
    if db.rows == [] then Ground(db.head) else Tail(db.rows[|db.rows| - 1].seqNo, db.rows[|db.rows| - 1].hash)
  }

  // ----- what is reported ---------------------------------------------------------------------

  // The first row that is not intact.
  ghost predicate RowReports(db: Db, i: int) {
    && 0 <= i < |db.rows| && !IntactAt(db, i) && db.rows[i].seqNo != 0
    && forall j :: 0 <= j < i ==> IntactAt(db, j) || db.rows[j].seqNo == 0
  }

  datatype Anchoring = Missing | Unsealed | Unmigrated | Forged | RolledBack | TailShort | TailLong | OtherHash | Agreeing

  // How anchor and tail stand to each other.
  ghost predicate Stands(h: Head, t: Tail, floor: int, a: Anchoring) {
    match a
    case Missing => !h.present && t.seqNo != 0
    case Unsealed => h.present && h.mac == Text("") && t.seqNo != 0 && t.seqNo <= h.legacyUntil
    case Unmigrated => h.present && h.mac == Text("") && t.seqNo != 0 && t.seqNo > h.legacyUntil
    case Forged => h.present && h.mac != Text("") && !Authentic(h)
    case RolledBack => Authentic(h) && h.seqNo < floor
    case TailShort => Authentic(h) && floor <= h.seqNo && t.seqNo < h.seqNo
    case TailLong => Authentic(h) && floor <= h.seqNo < t.seqNo
    case OtherHash => Authentic(h) && floor <= h.seqNo == t.seqNo && t.hash != h.hash
    case Agreeing => if Authentic(h) then floor <= h.seqNo && t == Tail(h.seqNo, h.hash)
                     else t.seqNo == 0 && (h.present ==> h.mac == Text(""))
  }

  // The number that goes with it.
  function Shows(h: Head, t: Tail, a: Anchoring): int {
    match a
    case Missing => 1
    case Unsealed => 1
    case Unmigrated => h.legacyUntil + 1
    case Forged => if h.seqNo > 1 then h.seqNo else 1
    case RolledBack => h.seqNo + 1
    case TailShort => t.seqNo + 1
    case TailLong => h.seqNo + 1
    case OtherHash => if t.seqNo > 1 then t.seqNo else 1
    case Agreeing => 0
  }

  lemma ExactlyOneStands(h: Head, t: Tail, floor: int) returns (a: Anchoring)
    ensures Stands(h, t, floor, a) && forall b :: Stands(h, t, floor, b) ==> b == a
  {
    a := if !h.present then (if t.seqNo == 0 then Agreeing else Missing)
         else if h.mac == Text("") then
           (if t.seqNo == 0 then Agreeing else if t.seqNo <= h.legacyUntil then Unsealed else Unmigrated)
         else if !HeadValid(h) then Forged
         else if h.seqNo < floor then RolledBack
         else if t.seqNo < h.seqNo then TailShort
         else if t.seqNo > h.seqNo then TailLong
         else if t.hash != h.hash then OtherHash else Agreeing;
  }

  lemma AnchorShows(h: Head, t: Tail, floor: int, a: Anchoring)
    requires Stands(h, t, floor, a)
    ensures AnchorBreak(h, t, floor, false) == Shows(h, t, a)
  {
  }

  // ----- what the transactions store --------------------------------------------------------

  // The newest row there is, as Append and sealing see it.
  function LastRow(rows: seq<Row>): Tail {
    if rows == [] then Tail(0, Text("")) else Tail(rows[|rows| - 1].seqNo, rows[|rows| - 1].hash)
  }

  // A valid anchor over t that keeps the old one's legacy_until and retention base.
  ghost predicate AnchoredOver(h: Head, h': Head, t: Tail) {
    && Authentic(h') && Tail(h'.seqNo, h'.hash) == t && h'.legacyUntil == h.legacyUntil
    && h'.baseSeq == h.baseSeq && h'.baseHash == h.baseHash
  }

  // One row more, which holds the event on top of the newest row, under a valid anchor over it. The anchor carries on a
  // recorded break, or records what the old one shows.
  ghost predicate AppendDone(db: Db, floor: int, seqNo: int, t: int, ev: Event, db': Db) {
    exists r, a ::
      && Records(r, seqNo, t, ev, LastRow(db.rows).hash) && OneRowMore(db.rows, db'.rows, r)
      && AnchoredOver(db.head, db'.head, Tail(seqNo, r.hash)) && Stands(db.head, LastRow(db.rows), floor, a)
      && db'.head.broken == if Authentic(db.head) && db.head.broken != 0 then db.head.broken else Shows(db.head, LastRow(db.rows), a)
  }

  // The same rows, under a valid anchor over the newest. It records what the old one shows, but for v1 rows vouched for
  // as migrated. A sealed anchor stays, valid or not.
  ghost predicate SealDone(db: Db, legacyMigrated: bool, db': Db) {
    && db'.rows == db.rows
    && if db.head.present && db.head.mac != Text("") then db'.head == db.head
       else AnchoredOver(db.head, db'.head, LastRow(db.rows))
            && exists a :: Stands(db.head, LastRow(db.rows), 0, a)
                 && db'.head.broken == if a.Unsealed? && legacyMigrated then 0 else Shows(db.head, LastRow(db.rows), a)
  }

  // After a clean verdict the longest leading run of overdue rows is gone and its newest row is the retention base of a
  // valid anchor that is otherwise the same; with a break, or nothing overdue, all is as it was.
  ghost predicate PruneDone(db: Db, bad: int, cutoff: int, db': Db) {
    exists n :: LongestOverdue(db.rows, cutoff, db.head.seqNo, n)
      && if bad != 0 || n == 0 || db.rows[n - 1].seqNo == 0 then db' == db
         else && db'.rows == db.rows[n..] && Authentic(db'.head)
              && db'.head.(mac := db.head.mac)
                 == db.head.(present := true, baseSeq := db.rows[n - 1].seqNo, baseHash := db.rows[n - 1].hash)
  }

  /** What an Append with an unused number stores. */
  lemma AppendStores(db: Db, floor: int, seqNo: int, t: int, ev: Event)
    requires !HasSeq(db.rows, seqNo)
    ensures AppendDone(db, floor, seqNo, t, ev, AppendTx(db, floor, seqNo, t, ev))
  {
    var r := NewRow(db.rows, seqNo, t, ev);
    InsertAddsOne(db.rows, r);
    if Ascending(db.rows) { InsertAscends(db.rows, r); }
    var a := ExactlyOneStands(db.head, LastRow(db.rows), floor);
    AnchorShows(db.head, LastRow(db.rows), floor, a);
    assert Records(r, seqNo, t, ev, LastRow(db.rows).hash);
  }

  /** What sealing stores. */
  lemma SealStores(db: Db, legacyMigrated: bool)
    ensures SealDone(db, legacyMigrated, SealTx(db, legacyMigrated))
  {
    if !(db.head.present && db.head.mac != Text("")) {
      var a := ExactlyOneStands(db.head, LastRow(db.rows), 0);
      AnchorShows(db.head, LastRow(db.rows), 0, a);
    }
  }

  // r is old enough to go, and is not the anchored row.
  ghost predicate Overdue(r: Row, cutoff: int, headSeq: int) {
    r.ev.at.Time? && r.ev.at.t < cutoff && r.seqNo < headSeq
  }

  // The first n rows are the longest leading run that may go.
  ghost predicate LongestOverdue(rows: seq<Row>, cutoff: int, headSeq: int, n: int) {
    && 0 <= n <= |rows| && (forall i :: 0 <= i < n ==> Overdue(rows[i], cutoff, headSeq))
    && (n < |rows| ==> !Overdue(rows[n], cutoff, headSeq))
  }

  /** What a Prune stores. */
  lemma PruneStores(db: Db, floor: int, cutoff: int)
    requires Ascending(db.rows)
    ensures PruneDone(db, Verify(db, floor), cutoff, PruneTx(db, floor, cutoff))
  {
    var n := DueRun(db.rows, cutoff, db.head.seqNo);
    assert LongestOverdue(db.rows, cutoff, db.head.seqNo, n);
    if n > 0 {
      assert db.rows[..n][n - 1] == db.rows[n - 1];
      AfterIsSuffix(db.rows, n);
    }
  }

  // n is the number of the first row that is not intact, the break a valid anchor records, or what the anchor shows.
  ghost predicate Reports(db: Db, floor: int, n: int) {
    || (exists i :: RowReports(db, i) && n == db.rows[i].seqNo)
    || (Authentic(db.head) && n == db.head.broken)
    || (exists a :: Stands(db.head, Newest(db), floor, a) && n == Shows(db.head, Newest(db), a))
  }

  lemma {:induction false} WalkReports(rows: seq<Row>, start: Digest, legacyUntil: int) returns (i: int)
    ensures FirstBad(rows, start, legacyUntil) == 0 ==>
              forall j :: 0 <= j < |rows| ==> rows[j].seqNo == 0 || Intact(rows[j], HashBefore(rows, start, j), legacyUntil)
    ensures FirstBad(rows, start, legacyUntil) != 0 ==>
              && 0 <= i < |rows| && FirstBad(rows, start, legacyUntil) == rows[i].seqNo
              && !Intact(rows[i], HashBefore(rows, start, i), legacyUntil)
              && forall j :: 0 <= j < i ==> rows[j].seqNo == 0 || Intact(rows[j], HashBefore(rows, start, j), legacyUntil)
    decreases |rows|
  {
    i := 0;
    if rows != [] && (RowValid(rows[0], start, legacyUntil) || rows[0].seqNo == 0) {
      var rest := rows[1..];
      var k := WalkReports(rest, rows[0].hash, legacyUntil);
      i := k + 1;
      forall j | 0 < j < |rows| ensures rest[j - 1] == rows[j] && HashBefore(rest, rows[0].hash, j - 1) == HashBefore(rows, start, j) {}
    }
  }

  lemma VerdictOf(db: Db, floor: int)
    ensures Verify(db, floor) == Combine(FirstBad(db.rows, Ground(db.head).hash, db.head.legacyUntil),
                                         AnchorVerdict(db.head, Newest(db), floor))
  {
  }

  // Of the three numbers the smallest that is not 0.
  lemma SmallestOf(h: Head, t: Tail, floor: int, rowBad: int, shown: int)
    requires AnchorBreak(h, t, floor, false) == shown
    ensures var v := Combine(rowBad, AnchorVerdict(h, t, floor));
            && (v != 0 ==> v == rowBad || (Authentic(h) && v == h.broken) || v == shown)
            && (rowBad != 0 ==> v != 0 && v <= rowBad) && (Authentic(h) && h.broken != 0 ==> v != 0 && v <= h.broken)
            && (shown != 0 ==> v != 0 && v <= shown)
  {
  }

  /** For every table content: the verdict is the least nonzero number that the rows, the recorded break and the anchor
      report, and 0 when they report none. */
  lemma VerdictIsLeast(db: Db, floor: int)
    ensures Least(db, floor, Verify(db, floor))
  {
    var rowBad := RowsReport(db);
    var a := ExactlyOneStands(db.head, Newest(db), floor);
    AnchorShows(db.head, Newest(db), floor, a);
    ReportsAre(db, floor, rowBad, a);
    SmallestOf(db.head, Newest(db), floor, rowBad, Shows(db.head, Newest(db), a));
    VerdictOf(db, floor);
  }

  lemma RowsReport(db: Db) returns (rowBad: int)
    ensures rowBad == FirstBad(db.rows, Ground(db.head).hash, db.head.legacyUntil)
    ensures rowBad == 0 ==> forall k :: !RowReports(db, k)
    ensures rowBad != 0 ==> (exists i :: RowReports(db, i) && rowBad == db.rows[i].seqNo) && forall k :: RowReports(db, k) ==> db.rows[k].seqNo == rowBad
  {
    var i := WalkReports(db.rows, Ground(db.head).hash, db.head.legacyUntil);
    rowBad := FirstBad(db.rows, Ground(db.head).hash, db.head.legacyUntil);
    RowNumber(db, i, rowBad);
  }

  // What is reported besides zeros.
  lemma ReportsAre(db: Db, floor: int, rowBad: int, a: Anchoring)
    requires rowBad == 0 ==> forall k :: !RowReports(db, k)
    requires rowBad != 0 ==> (exists i :: RowReports(db, i) && rowBad == db.rows[i].seqNo) && forall k :: RowReports(db, k) ==> db.rows[k].seqNo == rowBad
    requires Stands(db.head, Newest(db), floor, a) && forall b :: Stands(db.head, Newest(db), floor, b) ==> b == a
    ensures forall n :: n != 0 ==>
              (Reports(db, floor, n) <==> n == rowBad || (Authentic(db.head) && n == db.head.broken) || n == Shows(db.head, Newest(db), a))
  {
  }

  ghost predicate Least(db: Db, floor: int, v: int) {
    && (v != 0 ==> Reports(db, floor, v))
    && forall n :: Reports(db, floor, n) && n != 0 ==> v != 0 && v <= n
  }

  lemma RowNumber(db: Db, i: int, bad: int)
    requires bad == 0 ==> forall j :: 0 <= j < |db.rows| ==> db.rows[j].seqNo == 0 || IntactAt(db, j)
    requires bad != 0 ==> 0 <= i < |db.rows| && bad == db.rows[i].seqNo && !IntactAt(db, i)
                          && forall j :: 0 <= j < i ==> db.rows[j].seqNo == 0 || IntactAt(db, j)
    ensures bad == 0 ==> forall k :: !RowReports(db, k)
    ensures bad != 0 ==> RowReports(db, i) && forall k :: RowReports(db, k) ==> k == i
  {
  }
}
