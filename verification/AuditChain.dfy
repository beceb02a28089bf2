/** The keyed, hash-chained audit log: rows, head anchor, and every transaction on them as a function
    from the stored tables to the stored tables.

    Digests are ideal: HMAC and SHA-256 are free constructors, so equal outputs have equal inputs.
    Text(s) is any other column content; BLANK is the empty column. */
module AuditChain {

  datatype Digest =
    | Text(s: string)
    | Sha(prev: Digest, at: int, body: string)
    | Mac(msg: Message)

  const BLANK := Text("")

  // What the chain key ever authenticates: one form per domain tag.
  datatype Message =
    | EntryMsg(prev: Digest, seqNo: int, at: int, eventType: string, actor: string, target: string, details: string)
    | HeadMsg1(legacyUntil: int, headSeq: int, headHash: Digest, broken: int)
    | HeadMsg2(legacyUntil: int, headSeq: int, headHash: Digest, broken: int, baseSeq: int, baseHash: Digest)

  // A stored occurred_at column: a readable instant, or content no layout parses.
  datatype Stamp = Time(t: int) | Unreadable

  datatype Event = Event(at: Stamp, eventType: string, actor: string, target: string, details: string)

  datatype Row = Row(seqNo: int, ev: Event, prev: Digest, hash: Digest)

  datatype Head = Head(present: bool, legacyUntil: int, seqNo: int, hash: Digest, broken: int, mac: Digest,
                       baseSeq: int, baseHash: Digest)

  const NO_HEAD := Head(false, 0, 0, BLANK, 0, BLANK, 0, BLANK)

  datatype Tail = Tail(seqNo: int, hash: Digest)

  const NO_TAIL := Tail(0, BLANK)

  // audit_log in sequence order, and the single row of audit_head.
  datatype Db = Db(rows: seq<Row>, head: Head)

  // sequence_no is a primary key and every scan is ordered by it.
  ghost predicate Ascending(rows: seq<Row>) {
    forall i, j :: 0 <= i < j < |rows| ==> rows[i].seqNo < rows[j].seqNo
  }

  function LegacyBody(ev: Event): string {
    ev.eventType + "\n" + ev.actor + "\n" + ev.target + "\n" + ev.details
  }

  function EntryMessage(prev: Digest, seqNo: int, t: int, ev: Event): Message {
    EntryMsg(prev, seqNo, t, ev.eventType, ev.actor, ev.target, ev.details)
  }

  predicate RowValid(r: Row, previous: Digest, legacyUntil: int) {
    && r.prev == previous
    && r.ev.at.Time?
    && r.hash == if r.seqNo <= legacyUntil
                 then Sha(r.prev, r.ev.at.t, LegacyBody(r.ev))
                 else Mac(EntryMessage(r.prev, r.seqNo, r.ev.at.t, r.ev))
  }

  function HeadMessage(h: Head): Message {
    if h.baseSeq != 0 || h.baseHash != BLANK
    then HeadMsg2(h.legacyUntil, h.seqNo, h.hash, h.broken, h.baseSeq, h.baseHash)
    else HeadMsg1(h.legacyUntil, h.seqNo, h.hash, h.broken)
  }

  predicate HeadValid(h: Head) {
    h.present && h.mac != BLANK && h.mac == Mac(HeadMessage(h))
  }

  function Sealed(h: Head): Head {
    h.(present := true, mac := Mac(HeadMessage(h)))
  }

  function Max(a: int, b: int): int {
    if a < b then b else a
  }

  function ReadTail(rows: seq<Row>): Tail {
    if rows == [] then NO_TAIL else Tail(rows[|rows| - 1].seqNo, rows[|rows| - 1].hash)
  }

  /** The first sequence number the anchor shows to be broken, 0 when anchor and tail agree. */
  function AnchorBreak(h: Head, t: Tail, floor: int, allowUnsealedLegacy: bool): int {
    if !h.present then
      if t.seqNo == 0 then 0 else 1
    else if h.mac == BLANK then
      if t.seqNo == 0 then 0
      else if t.seqNo > h.legacyUntil then h.legacyUntil + 1
      else if allowUnsealedLegacy then 0
      else 1
    else if !HeadValid(h) then Max(h.seqNo, 1)
    else if h.seqNo < floor then h.seqNo + 1
    else if t.seqNo < h.seqNo then t.seqNo + 1
    else if t.seqNo > h.seqNo then h.seqNo + 1
    else if t.hash != h.hash then Max(t.seqNo, 1)
    else 0
  }

  // The walk over the rows starts from the retention base, trusted only from a valid anchor.
  function WalkStart(h: Head): Tail {
    if HeadValid(h) then Tail(h.baseSeq, h.baseHash) else NO_TAIL
  }

  function FirstBad(rows: seq<Row>, previous: Digest, legacyUntil: int): int {
    if rows == [] then 0
    else if !RowValid(rows[0], previous, legacyUntil) && rows[0].seqNo != 0 then rows[0].seqNo
    else FirstBad(rows[1..], rows[0].hash, legacyUntil)
  }

  function WalkEnd(rows: seq<Row>, start: Tail): Tail {
    if rows == [] then start else ReadTail(rows)
  }

  function Combine(rowBad: int, anchorBad: int): int {
    if rowBad == 0 then anchorBad
    else if anchorBad == 0 || rowBad < anchorBad then rowBad
    else anchorBad
  }

  function AnchorVerdict(h: Head, t: Tail, floor: int): int {
    var anchorBad := AnchorBreak(h, t, floor, false);
    if HeadValid(h) && h.broken != 0 && (anchorBad == 0 || h.broken < anchorBad) then h.broken else anchorBad
  }

  /** VerifyChain's verdict on one snapshot: 0, or the first sequence number shown to be broken. */
  function Verify(db: Db, floor: int): int {
    var start := WalkStart(db.head);
    Combine(FirstBad(db.rows, start.hash, db.head.legacyUntil),
            AnchorVerdict(db.head, WalkEnd(db.rows, start), floor))
  }

  // ----- transactions --------------------------------------------------------------

  function Insert(rows: seq<Row>, r: Row): seq<Row> {
    if rows == [] || rows[|rows| - 1].seqNo < r.seqNo then rows + [r]
    else Insert(rows[..|rows| - 1], r) + [rows[|rows| - 1]]
  }

  predicate HasSeq(rows: seq<Row>, seqNo: int) {
    exists i :: 0 <= i < |rows| && rows[i].seqNo == seqNo
  }

  // The marker Append writes: a valid sticky one, else what the anchor proves broken right now.
  function Marker(h: Head, t: Tail, floor: int): int {
    if HeadValid(h) && h.broken != 0 then h.broken else AnchorBreak(h, t, floor, false)
  }

  function NewRow(rows: seq<Row>, seqNo: int, t: int, ev: Event): Row {
    var prev := ReadTail(rows).hash;
    Row(seqNo, ev.(at := Time(t)), prev, Mac(EntryMessage(prev, seqNo, t, ev)))
  }

  function AppendedHead(db: Db, floor: int, r: Row): Head {
    Sealed(db.head.(seqNo := r.seqNo, hash := r.hash, broken := Marker(db.head, ReadTail(db.rows), floor)))
  }

  /** One Append transaction at instant t; seqNo is what the database sequence handed out.
      A taken seqNo violates the primary key and rolls back. */
  function AppendTx(db: Db, floor: int, seqNo: int, t: int, ev: Event): Db {
    if HasSeq(db.rows, seqNo) then db
    else
      var r := NewRow(db.rows, seqNo, t, ev);
      Db(Insert(db.rows, r), AppendedHead(db, floor, r))
  }

  predicate IsSealed(h: Head) {
    h.present && h.mac != BLANK
  }

  /** One sealing transaction: a sealed anchor is left alone, an unsealed one is sealed over the tail. */
  function SealTx(db: Db, legacyMigrated: bool): Db {
    if IsSealed(db.head) then db
    else
      var t := ReadTail(db.rows);
      Db(db.rows, Sealed(db.head.(seqNo := t.seqNo, hash := t.hash,
                                  broken := AnchorBreak(db.head, t, 0, legacyMigrated))))
  }

  predicate Due(r: Row, cutoff: int, headSeq: int) {
    r.ev.at.Time? && r.seqNo < headSeq && r.ev.at.t < cutoff
  }

  // Length of the leading run pruneBoundary accepts.
  function DueRun(rows: seq<Row>, cutoff: int, headSeq: int): (n: nat)
    ensures n <= |rows|
    ensures forall i :: 0 <= i < n ==> Due(rows[i], cutoff, headSeq)
    ensures n < |rows| ==> !Due(rows[n], cutoff, headSeq)
  {
    if rows == [] || !Due(rows[0], cutoff, headSeq) then 0
    else 1 + DueRun(rows[1..], cutoff, headSeq)
  }

  function PruneBoundary(rows: seq<Row>, cutoff: int, headSeq: int): Tail {
    ReadTail(rows[..DueRun(rows, cutoff, headSeq)])
  }

  function After(rows: seq<Row>, seqNo: int): seq<Row> {
    if rows == [] then []
    else (if rows[0].seqNo <= seqNo then [] else [rows[0]]) + After(rows[1..], seqNo)
  }

  /** One Prune transaction; a chain that does not verify, or nothing due, leaves the tables alone. */
  function PruneTx(db: Db, floor: int, cutoff: int): Db {
    var base := PruneBoundary(db.rows, cutoff, db.head.seqNo);
    if Verify(db, floor) != 0 || base.seqNo == 0 then db
    else Db(After(db.rows, base.seqNo), Sealed(db.head.(baseSeq := base.seqNo, baseHash := base.hash)))
  }

  // ----- what the verdict means ------------------------------------------------------

  function HashBefore(rows: seq<Row>, start: Digest, i: int): Digest
    requires 0 <= i <= |rows|
  {
    if i == 0 then start else rows[i - 1].hash
  }

  // Row i is authentic and linked to its predecessor.
  ghost predicate ValidAt(rows: seq<Row>, start: Digest, legacyUntil: int, i: int)
    requires 0 <= i < |rows|
  {
    RowValid(rows[i], HashBefore(rows, start, i), legacyUntil)
  }

  ghost predicate Chained(rows: seq<Row>, start: Digest, legacyUntil: int) {
    forall i :: 0 <= i < |rows| ==> ValidAt(rows, start, legacyUntil, i)
  }

  // The same chain, with the rows numbered 0 left out of the check.
  ghost predicate ChainedButZero(rows: seq<Row>, start: Digest, legacyUntil: int) {
    forall i :: 0 <= i < |rows| ==> rows[i].seqNo == 0 || ValidAt(rows, start, legacyUntil, i)
  }

  // No number is stored where a report of it would read 0: no row numbered 0, no tail numbered -1 (a tail too
  // low is reported as one more than its number), no unsealed anchor over rows with legacy_until -1 (which is
  // reported as one more), no valid anchor numbered -1. sequence_no is a primary key, and an anchor that is not
  // there reads as all blank.
  ghost predicate Countable(db: Db) {
    && CountableTables(db)
    && (HeadValid(db.head) ==> db.head.seqNo != -1)
  }

  ghost predicate CountableTables(db: Db) {
    && Ascending(db.rows)
    && (forall i :: 0 <= i < |db.rows| ==> db.rows[i].seqNo != 0)
    && (if db.rows == [] then db.head.baseSeq != -1 else db.rows[|db.rows| - 1].seqNo != -1)
    && (db.rows != [] && !IsSealed(db.head) ==> db.head.legacyUntil != -1)
    && (!db.head.present ==> db.head == NO_HEAD)
  }

  // A valid anchor that carries no break, is not below the floor and names the tail.
  ghost predicate Agrees(h: Head, t: Tail, floor: int) {
    HeadValid(h) && floor <= h.seqNo && t == Tail(h.seqNo, h.hash)
  }

  lemma {:induction false} FirstBadZeroIff(rows: seq<Row>, start: Digest, legacyUntil: int)
    ensures FirstBad(rows, start, legacyUntil) == 0 <==> ChainedButZero(rows, start, legacyUntil)
  {
    if rows != [] {
      var rest := rows[1..];
      FirstBadZeroIff(rest, rows[0].hash, legacyUntil);
      forall i | 0 <= i < |rest|
        ensures rest[i] == rows[i + 1]
        ensures ValidAt(rest, rows[0].hash, legacyUntil, i) == ValidAt(rows, start, legacyUntil, i + 1)
      {
      }
      if ChainedButZero(rows, start, legacyUntil) {
        assert ValidAt(rows, start, legacyUntil, 0) || rows[0].seqNo == 0;
        forall i | 0 <= i < |rest|
          ensures rest[i].seqNo == 0 || ValidAt(rest, rows[0].hash, legacyUntil, i)
        {
          assert rows[i + 1].seqNo == 0 || ValidAt(rows, start, legacyUntil, i + 1);
        }
      }
      if ChainedButZero(rest, rows[0].hash, legacyUntil) && (rows[0].seqNo == 0 || RowValid(rows[0], start, legacyUntil)) {
        forall i | 0 <= i < |rows|
          ensures rows[i].seqNo == 0 || ValidAt(rows, start, legacyUntil, i)
        {
          if i > 0 { assert rest[i - 1].seqNo == 0 || ValidAt(rest, rows[0].hash, legacyUntil, i - 1); }
        }
      }
    }
  }

  // An anchor and a tail that go unreported although they disagree: the report comes out as -1 + 1.
  ghost predicate Unreported(h: Head, t: Tail, floor: int) {
    if !HeadValid(h) then h.present && h.mac == BLANK && h.legacyUntil == -1 < t.seqNo
    else if h.seqNo < floor || h.seqNo < t.seqNo then h.seqNo == -1
    else t.seqNo == -1 < h.seqNo
  }

  /** The anchor reports nothing exactly when it agrees with the tail, when nothing was ever sealed and the tail
      is numbered 0, or when the number to report is 0. */
  lemma AnchorBreakZeroIff(h: Head, t: Tail, floor: int)
    ensures AnchorBreak(h, t, floor, false) == 0 <==>
            Agrees(h, t, floor) || (!IsSealed(h) && t.seqNo == 0) || Unreported(h, t, floor)
  {
  }

  /** The exact meaning of a clean verdict, for every table content whatsoever. */
  lemma VerifyZeroIff(db: Db, floor: int)
    ensures var h, t := db.head, WalkEnd(db.rows, WalkStart(db.head));
            Verify(db, floor) == 0 <==>
            && ChainedButZero(db.rows, WalkStart(h).hash, h.legacyUntil)
            && (Agrees(h, t, floor) || (!IsSealed(h) && t.seqNo == 0) || Unreported(h, t, floor))
            && (HeadValid(h) ==> h.broken == 0)
  {
    FirstBadZeroIff(db.rows, WalkStart(db.head).hash, db.head.legacyUntil);
    AnchorBreakZeroIff(db.head, WalkEnd(db.rows, WalkStart(db.head)), floor);
  }

  /** Where every number can be reported a clean verdict is the documented one: every row is authentic and linked,
      and the log is either empty and never sealed, or matched by a valid unbroken anchor. */
  lemma VerifyZeroCountable(db: Db, floor: int)
    requires Countable(db)
    ensures Verify(db, floor) == 0 <==>
            && Chained(db.rows, WalkStart(db.head).hash, db.head.legacyUntil)
            && if IsSealed(db.head)
               then db.head.broken == 0 && Agrees(db.head, WalkEnd(db.rows, WalkStart(db.head)), floor)
               else db.rows == []
  {
    VerifyZeroIff(db, floor);
    assert ChainedButZero(db.rows, WalkStart(db.head).hash, db.head.legacyUntil)
      <==> Chained(db.rows, WalkStart(db.head).hash, db.head.legacyUntil);
  }

  // ----- table helpers ---------------------------------------------------------------

  lemma {:induction false} InsertAtEnd(rows: seq<Row>, r: Row)
    requires forall i :: 0 <= i < |rows| ==> rows[i].seqNo < r.seqNo
    ensures Insert(rows, r) == rows + [r]
  {
  }

  lemma {:induction false} AfterIsSuffix(rows: seq<Row>, n: nat)
    requires Ascending(rows) && 0 < n <= |rows|
    ensures After(rows, rows[n - 1].seqNo) == rows[n..]
  {
    AfterDropsPrefix(rows, n, rows[n - 1].seqNo);
  }

  lemma {:induction false} AfterDropsPrefix(rows: seq<Row>, n: nat, seqNo: int)
    requires n <= |rows|
    requires forall i :: 0 <= i < n ==> rows[i].seqNo <= seqNo
    requires forall i :: n <= i < |rows| ==> rows[i].seqNo > seqNo
    ensures After(rows, seqNo) == rows[n..]
  {
    if rows != [] {
      if n == 0 {
        AfterDropsPrefix(rows[1..], 0, seqNo);
        assert rows == [rows[0]] + rows[1..];
      } else {
        AfterDropsPrefix(rows[1..], n - 1, seqNo);
      }
    }
  }
}
