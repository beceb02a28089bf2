/** Tamper evidence: whatever is written to the two tables without the key, a clean verdict means that the
    keyed rows are exactly the ones honest transactions put under that anchor. */
module AuditEvidence {
  import opened AuditChain
  import opened AuditVerdict

  // ----- two tables under one anchor ----------------------------------------------

  function Depth(d: Digest): nat {
    match d
    case Text(_) => 0
    case Sha(p, _, _) => 1 + Depth(p)
    case Mac(EntryMsg(p, _, _, _, _, _, _)) => 1 + Depth(p)
    case Mac(_) => 0
  }

  lemma {:induction false} ChainGrows(rows: seq<Row>, start: Digest, legacyUntil: int, i: nat)
    requires Chained(rows, start, legacyUntil) && i < |rows|
    ensures Depth(rows[i].hash) > Depth(start)
  {
    assert ValidAt(rows, start, legacyUntil, i);
    if i > 0 { ChainGrows(rows, start, legacyUntil, i - 1); }
  }

  lemma ChainedPrefix(rows: seq<Row>, start: Digest, legacyUntil: int, n: nat)
    requires Chained(rows, start, legacyUntil) && n <= |rows|
    ensures Chained(rows[..n], start, legacyUntil)
    ensures HashBefore(rows[..n], start, n) == HashBefore(rows, start, n)
  {
    forall i | 0 <= i < n ensures ValidAt(rows[..n], start, legacyUntil, i) {
      assert ValidAt(rows, start, legacyUntil, i);
    }
  }

  // Same digest, same kind; a keyed row is the same row, a legacy one has its own number and field boundaries.
  ghost predicate SamePinned(a: Row, b: Row, legacyUntil: int) {
    && a.hash == b.hash && a.prev == b.prev && a.ev.at == b.ev.at
    && (a.seqNo <= legacyUntil <==> b.seqNo <= legacyUntil)
    && LegacyBody(a.ev) == LegacyBody(b.ev)
    && (a.seqNo > legacyUntil ==> a == b)
  }

  lemma {:induction false} SameEndSameRows(a: seq<Row>, b: seq<Row>, start: Digest, legacyUntil: int)
    requires Chained(a, start, legacyUntil) && Chained(b, start, legacyUntil)
    requires HashBefore(a, start, |a|) == HashBefore(b, start, |b|)
    ensures |a| == |b|
    ensures forall i :: 0 <= i < |a| ==> SamePinned(a[i], b[i], legacyUntil)
    decreases |a|
  {
    if a == [] {
      if b != [] { ChainGrows(b, start, legacyUntil, |b| - 1); }
    } else if b == [] {
      ChainGrows(a, start, legacyUntil, |a| - 1);
    } else {
      var m, n := |a| - 1, |b| - 1;
      assert ValidAt(a, start, legacyUntil, m);
      assert ValidAt(b, start, legacyUntil, n);
      ChainedPrefix(a, start, legacyUntil, m);
      ChainedPrefix(b, start, legacyUntil, n);
      SameEndSameRows(a[..m], b[..n], start, legacyUntil);
      forall i | 0 <= i < |a| ensures SamePinned(a[i], b[i], legacyUntil) {
        if i < m { assert a[..m][i] == a[i] && b[..n][i] == b[i]; }
      }
    }
  }

  // b's rows stand in for a's, and the newest has the anchored number.
  ghost predicate StandsIn(a: Db, b: Db) {
    && |a.rows| == |b.rows|
    && (forall i :: 0 <= i < |a.rows| ==> SamePinned(a.rows[i], b.rows[i], a.head.legacyUntil))
    && WalkEnd(b.rows, WalkStart(b.head)).seqNo == b.head.seqNo
  }

  lemma StandInChained(a: seq<Row>, b: seq<Row>, start: Digest, legacyUntil: int)
    requires Chained(a, start, legacyUntil) && |a| == |b|
    requires forall i :: 0 <= i < |a| ==> SamePinned(a[i], b[i], legacyUntil)
    ensures Chained(b, start, legacyUntil) && HashBefore(b, start, |b|) == HashBefore(a, start, |a|)
  {
    forall i | 0 <= i < |b| ensures ValidAt(b, start, legacyUntil, i) {
      assert ValidAt(a, start, legacyUntil, i) && SamePinned(a[i], b[i], legacyUntil);
      if i > 0 { assert SamePinned(a[i - 1], b[i - 1], legacyUntil); }
    }
    if |a| > 0 { assert SamePinned(a[|a| - 1], b[|a| - 1], legacyUntil); }
  }

  /** Under an anchor that one table verifies against, another verifies exactly when it stands in for the first: keyed
      rows equal in every field, legacy rows in digest, instant and joined text, the newest with the anchored number. */
  lemma AnchorPinsTable(a: Db, b: Db, floor: int)
    requires Countable(a) && Countable(b) && a.head == b.head && HeadValid(a.head) && Verify(a, floor) == 0
    ensures Verify(b, floor) == 0 <==> StandsIn(a, b)
  {
    VerifyZeroCountable(a, floor);
    VerifyZeroCountable(b, floor);
    var start, lu := a.head.baseHash, a.head.legacyUntil;
    if Verify(b, floor) == 0 { SameEndSameRows(a.rows, b.rows, start, lu); }
    if StandsIn(a, b) { StandInChained(a.rows, b.rows, start, lu); }
  }

  /** Legacy rows are pinned no further: other field contents share the v1 digest. */
  lemma LegacyFieldsNotPinned(t: int, d: string)
    ensures var a := Event(Time(t), "x", "y\nz", "", d);
            var b := Event(Time(t), "x\ny", "z", "", d);
            a != b && LegacyBody(a) == LegacyBody(b)
  {
    assert "x" + "\n" + "y\nz" == "x\ny" + "\n" + "z";
  }

  /** Nor are their numbers: a legacy row that is not the newest can be renumbered wherever there is room below the
      next one, and the verdict stays clean. */
  lemma LegacyNumbersNotPinned(a: Db, floor: int, i: nat, seqNo: int)
    requires Countable(a) && HeadValid(a.head) && Verify(a, floor) == 0 && i + 1 < |a.rows|
    requires a.rows[i].seqNo <= a.head.legacyUntil && seqNo <= a.head.legacyUntil && seqNo != 0
    requires (i > 0 ==> a.rows[i - 1].seqNo < seqNo) && seqNo < a.rows[i + 1].seqNo
    ensures Verify(a.(rows := a.rows[i := a.rows[i].(seqNo := seqNo)]), floor) == 0
  {
    var b := a.(rows := a.rows[i := a.rows[i].(seqNo := seqNo)]);
    RenumberAscending(a.rows, i, seqNo);
    assert Countable(b);
    RenumberStandsIn(a, floor, i, seqNo);
    AnchorPinsTable(a, b, floor);
  }

  lemma RenumberStandsIn(a: Db, floor: int, i: nat, seqNo: int)
    requires Countable(a) && HeadValid(a.head) && Verify(a, floor) == 0 && i + 1 < |a.rows|
    requires a.rows[i].seqNo <= a.head.legacyUntil && seqNo <= a.head.legacyUntil
    ensures StandsIn(a, a.(rows := a.rows[i := a.rows[i].(seqNo := seqNo)]))
  {
    VerifyZeroCountable(a, floor);
  }

  lemma RenumberAscending(rows: seq<Row>, i: nat, seqNo: int)
    requires Ascending(rows) && i + 1 < |rows| && (i > 0 ==> rows[i - 1].seqNo < seqNo) && seqNo < rows[i + 1].seqNo
    ensures Ascending(rows[i := rows[i].(seqNo := seqNo)])
  {
    var renumbered := rows[i := rows[i].(seqNo := seqNo)];
    forall j, k | 0 <= j < k < |rows| ensures renumbered[j].seqNo < renumbered[k].seqNo {
      if j < i - 1 { assert rows[j].seqNo < rows[i - 1].seqNo; }
      if k > i + 1 { assert rows[i + 1].seqNo < rows[k].seqNo; }
    }
  }

  // ----- honest transactions and keyless edits --------------------------------------

  // What honest transactions put under an anchor: keyed rows on top of the digest start.
  datatype Account = Account(start: Digest, rows: seq<Row>)

  // issued: everything authenticated so far. ledger: the account of each unbroken anchor.
  datatype World = World(db: Db, lastSeq: int, issued: set<Message>, ledger: map<Message, Account>)

  datatype Step =
    | Append(floor: int, seqNo: int, t: int, ev: Event)
    | Seal
    | Prune(floor: int, cutoff: int)
    | Edit(db: Db)

  // Without the key, MAC values can only be copied; everything else can be computed.
  ghost predicate Known(d: Digest, issued: set<Message>) {
    match d
    case Text(_) => true
    case Sha(p, _, _) => Known(p, issued)
    case Mac(m) => m in issued
  }

  ghost predicate AllKnown(db: Db, issued: set<Message>) {
    && (forall i :: 0 <= i < |db.rows| ==> Known(db.rows[i].prev, issued) && Known(db.rows[i].hash, issued))
    && Known(db.head.hash, issued) && Known(db.head.mac, issued) && Known(db.head.baseHash, issued)
  }

  // Where the anchor has no break to report, it is because it agrees with the tail or there is nothing yet.
  ghost predicate Told(db: Db, floor: int) {
    Marker(db.head, ReadTail(db.rows), floor) == 0 ==>
      Agrees(db.head, ReadTail(db.rows), floor) || (!IsSealed(db.head) && ReadTail(db.rows) == NO_TAIL)
  }

  /** That is so unless the number to report is 0, or rows end in one numbered 0 that was never sealed. */
  lemma ToldIff(db: Db, floor: int)
    ensures var h, t := db.head, ReadTail(db.rows);
            Told(db, floor) <==>
            || (HeadValid(h) && h.broken != 0)
            || (if !IsSealed(h) && t.seqNo == 0 then t == NO_TAIL else !Unreported(h, t, floor))
  {
    AnchorBreakZeroIff(db.head, ReadTail(db.rows), floor);
  }

  // A keyless edit is any tables whose digests are known. What a transaction goes by must be told: Append and Seal go
  // by the anchor, Prune by a clean verdict, for which the tables must be countable.
  ghost predicate Enabled(w: World, s: Step) {
    match s
    case Append(floor, seqNo, _, _) => seqNo > w.lastSeq && Told(w.db, floor)
    case Seal => IsSealed(w.db.head) || Told(w.db, 0)
    case Prune(floor, _) => Verify(w.db, floor) == 0 ==> CountableTables(w.db)
    case Edit(db) => AllKnown(db, w.issued)
  }

  // The account an anchor's successor extends.
  ghost function Carried(w: World): Account {
    if HeadValid(w.db.head) && HeadMessage(w.db.head) in w.ledger
    then w.ledger[HeadMessage(w.db.head)] else Account(BLANK, [])
  }

  ghost function Record(w: World, h: Head, a: Account): map<Message, Account> {
    if h.broken == 0 then w.ledger[HeadMessage(h) := a] else w.ledger
  }

  ghost function AppendStep(w: World, floor: int, seqNo: int, t: int, ev: Event): World {
    if HasSeq(w.db.rows, seqNo) then w.(lastSeq := seqNo)
    else
      var r := NewRow(w.db.rows, seqNo, t, ev);
      var db := AppendTx(w.db, floor, seqNo, t, ev);
      var c := Carried(w);
      World(db, seqNo, w.issued + {r.hash.msg, HeadMessage(db.head)},
            Record(w, db.head, Account(c.start, c.rows + [r])))
  }

  ghost function SealStep(w: World): World {
    if IsSealed(w.db.head) then w
    else
      var db := SealTx(w.db, false);
      World(db, w.lastSeq, w.issued + {HeadMessage(db.head)}, Record(w, db.head, Account(BLANK, [])))
  }

  // What pruning up to base leaves of an account.
  ghost function Kept(a: Account, base: Tail): Account {
    var rows := After(a.rows, base.seqNo);
    Account(if rows == a.rows then a.start else base.hash, rows)
  }

  ghost function PruneStep(w: World, floor: int, cutoff: int): World {
    var db := PruneTx(w.db, floor, cutoff);
    if db == w.db then w
    else World(db, w.lastSeq, w.issued + {HeadMessage(db.head)},
               Record(w, db.head, Kept(Carried(w), Tail(db.head.baseSeq, db.head.baseHash))))
  }

  ghost function Next(w: World, s: Step): World {
    match s
    case Append(floor, seqNo, t, ev) => AppendStep(w, floor, seqNo, t, ev)
    case Seal => SealStep(w)
    case Prune(floor, cutoff) => PruneStep(w, floor, cutoff)
    case Edit(db) => w.(db := db)
  }

  /** What a step does to the tables: the honest ones are the transactions, an edit puts any tables there whose digests
      are known; sealing a sealed anchor, a prune that finds a break and an edit ask for nothing else. */
  lemma StepsAreTransactions(w: World, floor: int, seqNo: int, t: int, ev: Event, cutoff: int, db: Db)
    ensures Next(w, Append(floor, seqNo, t, ev)).db == AppendTx(w.db, floor, seqNo, t, ev)
    ensures Next(w, Seal).db == SealTx(w.db, false) && Next(w, Prune(floor, cutoff)).db == PruneTx(w.db, floor, cutoff)
    ensures Next(w, Edit(db)) == World(db, w.lastSeq, w.issued, w.ledger) && (AllKnown(db, w.issued) ==> Enabled(w, Edit(db)))
    ensures IsSealed(w.db.head) ==> Enabled(w, Seal)
    ensures Verify(w.db, floor) != 0 || CountableTables(w.db) ==> Enabled(w, Prune(floor, cutoff))
    ensures Countable(w.db) ==> Enabled(w, Seal) && (seqNo > w.lastSeq ==> Enabled(w, Append(floor, seqNo, t, ev)))
  {
    ToldIff(w.db, floor);
    ToldIff(w.db, 0);
  }

  // A fresh installation, or a v1 log sealed inside the migration that introduced the anchor.
  ghost predicate Initial(w: World) {
    || w == World(Db([], NO_HEAD.(present := true)), 0, {}, map[])
    || exists rows: seq<Row> :: CutoverOf(w, rows)
  }

  ghost predicate CutoverOf(w: World, rows: seq<Row>) {
    var t := ReadTail(rows);
    var db := SealTx(Db(rows, NO_HEAD.(present := true, legacyUntil := t.seqNo)), true);
    && Ascending(rows) && (forall i :: 0 <= i < |rows| ==> rows[i].seqNo > 0) && AllKnown(Db(rows, NO_HEAD), {})
    && w == World(db, t.seqNo, {HeadMessage(db.head)}, map[HeadMessage(db.head) := Account(t.hash, [])])
  }

  ghost predicate Run(w: World, steps: seq<Step>, w': World)
    decreases |steps|
  {
    if steps == [] then w == w'
    else Enabled(w, steps[0]) && Run(Next(w, steps[0]), steps[1..], w')
  }

  // ----- the invariant ----------------------------------------------------------------

  ghost predicate IsHeadMsg(m: Message) { !m.EntryMsg? }

  ghost function BaseHash(m: Message): Digest {
    if m.HeadMsg2? then m.baseHash else BLANK
  }

  ghost predicate KeyedRow(r: Row) {
    r.ev.at.Time? && r.hash == Mac(EntryMessage(r.prev, r.seqNo, r.ev.at.t, r.ev))
  }

  ghost predicate LinkedAt(start: Digest, rows: seq<Row>, i: int)
    requires 0 <= i < |rows|
  {
    KeyedRow(rows[i]) && rows[i].prev == HashBefore(rows, start, i)
  }

  ghost predicate Linked(start: Digest, rows: seq<Row>, end: Digest) {
    && (forall i :: 0 <= i < |rows| ==> LinkedAt(start, rows, i))
    && end == HashBefore(rows, start, |rows|)
  }

  ghost predicate AccountOk(m: Message, a: Account, issued: set<Message>)
    requires IsHeadMsg(m)
  {
    && Linked(a.start, a.rows, m.headHash)
    && (a.start == BaseHash(m) || !a.start.Mac?)
    && (forall i :: 0 <= i < |a.rows| ==> a.rows[i].hash != BaseHash(m))
    && (forall i :: 0 <= i < |a.rows| ==> Known(a.rows[i].hash, issued))
  }

  ghost predicate LedgerOk(w: World) {
    forall m :: m in w.issued && IsHeadMsg(m) && m.broken == 0 ==>
                  m in w.ledger && AccountOk(m, w.ledger[m], w.issued)
  }

  ghost predicate Inv(w: World) {
    && AllKnown(w.db, w.issued)
    && 0 <= w.lastSeq && (forall m :: m in w.issued && m.EntryMsg? ==> m.seqNo <= w.lastSeq)
    && (forall m :: m in w.issued && IsHeadMsg(m) && m.broken == 0 ==> m.headSeq != -1)
    && LedgerOk(w)
  }

  lemma {:induction false} KnownGrows(d: Digest, s: set<Message>, s': set<Message>)
    requires Known(d, s) && s <= s'
    ensures Known(d, s')
  {
    if d.Sha? { KnownGrows(d.prev, s, s'); }
  }

  lemma AllKnownGrows(db: Db, s: set<Message>, s': set<Message>)
    requires AllKnown(db, s) && s <= s'
    ensures AllKnown(db, s')
  {
    forall i | 0 <= i < |db.rows| ensures Known(db.rows[i].prev, s') && Known(db.rows[i].hash, s') {
      KnownGrows(db.rows[i].prev, s, s');
      KnownGrows(db.rows[i].hash, s, s');
    }
    KnownGrows(db.head.hash, s, s');
    KnownGrows(db.head.mac, s, s');
    KnownGrows(db.head.baseHash, s, s');
  }

  // Only one new anchor is issued per step; the others keep their accounts.
  lemma LedgerKept(w: World, w': World, h: Head, a: Account)
    requires LedgerOk(w) && w.issued <= w'.issued
    requires forall m :: m in w'.issued && m !in w.issued ==> m.EntryMsg? || m == HeadMessage(h)
    requires w'.ledger == Record(w, h, a)
    requires h.broken == 0 ==> AccountOk(HeadMessage(h), a, w'.issued)
    ensures LedgerOk(w')
  {
    forall m | m in w'.issued && IsHeadMsg(m) && m.broken == 0
      ensures m in w'.ledger && AccountOk(m, w'.ledger[m], w'.issued)
    {
      if m != HeadMessage(h) {
        forall i | 0 <= i < |w.ledger[m].rows| ensures Known(w.ledger[m].rows[i].hash, w'.issued) {
          KnownGrows(w.ledger[m].rows[i].hash, w.issued, w'.issued);
        }
      }
    }
  }

  // ----- matching a verified table with its account -------------------------------------

  lemma {:induction false} LinkedFromEnd(a: seq<Row>, y: Digest, b: seq<Row>, start: Digest, end: Digest)
    requires Linked(y, a, end) && Linked(start, b, end) && |a| <= |b|
    ensures a == b[|b| - |a|..] && y == HashBefore(b, start, |b| - |a|)
    decreases |a|
  {
    if a != [] {
      var m, n := |a| - 1, |b| - 1;
      var a', b' := a[..m], b[..n];
      assert LinkedAt(y, a, m) && LinkedAt(start, b, n);
      forall i | 0 <= i < m ensures LinkedAt(y, a', i) { assert LinkedAt(y, a, i); }
      forall i | 0 <= i < n ensures LinkedAt(start, b', i) { assert LinkedAt(start, b, i); }
      LinkedFromEnd(a', y, b', start, a[m].prev);
      assert a[m] == b[n];
      assert a == a' + [a[m]] && b[n - m..] == b'[n - m..] + [b[n]];
    }
  }

  function LegacyCount(rows: seq<Row>, legacyUntil: int): (n: nat)
    ensures n <= |rows|
    ensures forall i :: 0 <= i < n ==> rows[i].seqNo <= legacyUntil
    ensures n < |rows| ==> rows[n].seqNo > legacyUntil
  {
    if rows == [] || rows[0].seqNo > legacyUntil then 0 else 1 + LegacyCount(rows[1..], legacyUntil)
  }

  function KeyedRows(db: Db): seq<Row> {
    db.rows[LegacyCount(db.rows, db.head.legacyUntil)..]
  }

  lemma KeyedPartLinked(db: Db, floor: int)
    requires Countable(db) && HeadValid(db.head) && Verify(db, floor) == 0
    ensures var k := LegacyCount(db.rows, db.head.legacyUntil);
            Linked(HashBefore(db.rows, db.head.baseHash, k), KeyedRows(db), db.head.hash)
  {
    VerifyZeroCountable(db, floor);
    KeyedLinked(db.rows, db.head.baseHash, db.head.legacyUntil, LegacyCount(db.rows, db.head.legacyUntil));
  }

  lemma KeyedLinked(rows: seq<Row>, base: Digest, legacyUntil: int, k: nat)
    requires Ascending(rows) && Chained(rows, base, legacyUntil) && k == LegacyCount(rows, legacyUntil)
    ensures Linked(HashBefore(rows, base, k), rows[k..], HashBefore(rows, base, |rows|))
  {
    forall i | 0 <= i < |rows[k..]| ensures LinkedAt(HashBefore(rows, base, k), rows[k..], i) {
      assert rows[k..][i] == rows[k + i] && ValidAt(rows, base, legacyUntil, k + i);
      assert rows[k].seqNo <= rows[k + i].seqNo;
    }
  }

  // An anchor that verifies is not numbered -1, for no honest transaction seals one so without a break.
  lemma VerifiedIsCountable(w: World, floor: int)
    requires Inv(w) && CountableTables(w.db) && Verify(w.db, floor) == 0
    ensures Countable(w.db)
  {
    VerifyZeroIff(w.db, floor);
    if HeadValid(w.db.head) { assert HeadMessage(w.db.head) in w.issued && HeadMessage(w.db.head).broken == 0; }
  }

  lemma VerifiedMatchesAccount(w: World, floor: int)
    requires Inv(w) && CountableTables(w.db) && HeadValid(w.db.head) && Verify(w.db, floor) == 0
    ensures HeadMessage(w.db.head) in w.issued && HeadMessage(w.db.head) in w.ledger
    ensures AccountOk(HeadMessage(w.db.head), w.ledger[HeadMessage(w.db.head)], w.issued)
    ensures KeyedRows(w.db) == w.ledger[HeadMessage(w.db.head)].rows
    ensures HashBefore(w.db.rows, w.db.head.baseHash, LegacyCount(w.db.rows, w.db.head.legacyUntil))
         == w.ledger[HeadMessage(w.db.head)].start
  {
    VerifiedIsCountable(w, floor);
    VerifyZeroCountable(w.db, floor);
    KeyedPartLinked(w.db, floor);
    var m := HeadMessage(w.db.head);
    assert m in w.issued && m.broken == 0;
    TableMatchesAccount(w.db.rows, w.db.head, w.ledger[m], w.issued);
  }

  lemma TableMatchesAccount(rows: seq<Row>, h: Head, a: Account, issued: set<Message>)
    requires Chained(rows, h.baseHash, h.legacyUntil) && AccountOk(HeadMessage(h), a, issued)
    requires Linked(HashBefore(rows, h.baseHash, LegacyCount(rows, h.legacyUntil)),
                    rows[LegacyCount(rows, h.legacyUntil)..], h.hash)
    ensures rows[LegacyCount(rows, h.legacyUntil)..] == a.rows
    ensures HashBefore(rows, h.baseHash, LegacyCount(rows, h.legacyUntil)) == a.start
  {
    var lu := h.legacyUntil;
    var k := LegacyCount(rows, lu);
    var keyed, y := rows[k..], HashBefore(rows, h.baseHash, k);
    NotMoreRows(rows, h, k, a, issued);
    BaseOrUnkeyed(rows, h, k);
    NotFewerRows(keyed, y, HeadMessage(h), a, issued);
    LinkedFromEnd(keyed, y, a.rows, a.start, h.hash);
  }

  // The keyed rows start from the base or from a v1 digest.
  lemma BaseOrUnkeyed(rows: seq<Row>, h: Head, k: nat)
    requires Chained(rows, h.baseHash, h.legacyUntil) && k == LegacyCount(rows, h.legacyUntil)
    ensures HashBefore(rows, h.baseHash, k) == h.baseHash || !HashBefore(rows, h.baseHash, k).Mac?
  {
    assert k > 0 ==> ValidAt(rows, h.baseHash, h.legacyUntil, k - 1);
  }

  // Fewer keyed rows than in the account would start from one of the account's digests.
  lemma NotFewerRows(keyed: seq<Row>, y: Digest, m: Message, a: Account, issued: set<Message>)
    requires IsHeadMsg(m) && AccountOk(m, a, issued) && Linked(y, keyed, m.headHash)
    requires y == BaseHash(m) || !y.Mac?
    ensures |a.rows| <= |keyed|
  {
    if |keyed| <= |a.rows| { LinkedFromEnd(keyed, y, a.rows, a.start, m.headHash); }
    assert |keyed| < |a.rows| ==> LinkedAt(a.start, a.rows, |a.rows| - |keyed| - 1);
  }

  // A table of more keyed rows than the account would run through the digest the account starts at.
  lemma NotMoreRows(rows: seq<Row>, h: Head, k: nat, a: Account, issued: set<Message>)
    requires Chained(rows, h.baseHash, h.legacyUntil) && AccountOk(HeadMessage(h), a, issued)
    requires k <= |rows| && Linked(HashBefore(rows, h.baseHash, k), rows[k..], h.hash)
    ensures |rows[k..]| <= |a.rows|
  {
    var keyed, y := rows[k..], HashBefore(rows, h.baseHash, k);
    if |keyed| > |a.rows| {
      var n := |keyed| - |a.rows|;
      LinkedFromEnd(a.rows, a.start, keyed, y, h.hash);
      assert a.start == keyed[n - 1].hash && keyed[n - 1] == rows[k + n - 1];
      assert LinkedAt(y, keyed, n - 1);
      ChainGrows(rows, h.baseHash, h.legacyUntil, k + n - 1);
      assert false;
    }
  }

  // ----- every step keeps the invariant ---------------------------------------------------

  lemma InsertKnown(rows: seq<Row>, r: Row, s: set<Message>)
    requires forall i :: 0 <= i < |rows| ==> Known(rows[i].prev, s) && Known(rows[i].hash, s)
    requires Known(r.prev, s) && Known(r.hash, s)
    ensures forall i :: 0 <= i < |Insert(rows, r)| ==>
                          Known(Insert(rows, r)[i].prev, s) && Known(Insert(rows, r)[i].hash, s)
    decreases |rows|
  {
    if rows != [] && rows[|rows| - 1].seqNo >= r.seqNo {
      InsertKnown(rows[..|rows| - 1], r, s);
    }
  }

  lemma AppendKeepsInv(w: World, floor: int, seqNo: int, t: int, ev: Event)
    requires Inv(w) && seqNo > w.lastSeq && Told(w.db, floor)
    ensures Inv(AppendStep(w, floor, seqNo, t, ev))
  {
    var w' := AppendStep(w, floor, seqNo, t, ev);
    if !HasSeq(w.db.rows, seqNo) {
      var r := NewRow(w.db.rows, seqNo, t, ev);
      var h := w'.db.head;
      assert Known(r.prev, w.issued);
      AllKnownGrows(w.db, w.issued, w'.issued);
      KnownGrows(r.prev, w.issued, w'.issued);
      InsertKnown(w.db.rows, r, w'.issued);
      AppendAccountOk(w, floor, seqNo, t, ev);
      var c := Carried(w);
      LedgerKept(w, w', h, Account(c.start, c.rows + [r]));
      forall m | m in w'.issued && m.EntryMsg? ensures m.seqNo <= w'.lastSeq {}
    }
  }

  // An anchor written without a break extends the account of the anchor it replaced.
  lemma AppendAccountOk(w: World, floor: int, seqNo: int, t: int, ev: Event)
    requires Inv(w) && seqNo > w.lastSeq && !HasSeq(w.db.rows, seqNo) && Told(w.db, floor)
    ensures var w' := AppendStep(w, floor, seqNo, t, ev);
            var c := Carried(w);
            var r := NewRow(w.db.rows, seqNo, t, ev);
            w'.db.head.broken == 0 ==>
              AccountOk(HeadMessage(w'.db.head), Account(c.start, c.rows + [r]), w'.issued)
  {
    var w' := AppendStep(w, floor, seqNo, t, ev);
    var h, h' := w.db.head, w'.db.head;
    var c, r := Carried(w), NewRow(w.db.rows, seqNo, t, ev);
    if h'.broken == 0 {
      var m' := HeadMessage(h');
      assert BaseHash(m') == h.baseHash;
      assert Known(h.baseHash, w.issued) && r.hash.msg !in w.issued;
      assert Linked(c.start, c.rows, r.prev);
      var all := c.rows + [r];
      forall i | 0 <= i < |all|
        ensures LinkedAt(c.start, all, i) && all[i].hash != BaseHash(m')
      {
        if i < |c.rows| { assert LinkedAt(c.start, c.rows, i); }
      }
      forall i | 0 <= i < |all| ensures Known(all[i].hash, w'.issued) {
        if i < |c.rows| { KnownGrows(c.rows[i].hash, w.issued, w'.issued); }
      }
    }
  }

  lemma SealKeepsInv(w: World)
    requires Inv(w) && (IsSealed(w.db.head) || Told(w.db, 0))
    ensures Inv(SealStep(w))
  {
    var w' := SealStep(w);
    if !IsSealed(w.db.head) {
      AllKnownGrows(w.db, w.issued, w'.issued);
      LedgerKept(w, w', w'.db.head, Account(BLANK, []));
    }
  }

  lemma PruneShape(db: Db, floor: int, cutoff: int) returns (n: nat)
    requires Countable(db) && PruneTx(db, floor, cutoff) != db
    ensures 0 < n < |db.rows| && HeadValid(db.head) && Verify(db, floor) == 0
    ensures n == DueRun(db.rows, cutoff, db.head.seqNo)
    ensures PruneTx(db, floor, cutoff)
         == Db(db.rows[n..], Sealed(db.head.(baseSeq := db.rows[n - 1].seqNo, baseHash := db.rows[n - 1].hash)))
  {
    VerifyZeroCountable(db, floor);
    n := DueRun(db.rows, cutoff, db.head.seqNo);
    if n > 0 {
      AfterIsSuffix(db.rows, n);
      assert Due(db.rows[n - 1], cutoff, db.head.seqNo);
      assert db.rows[|db.rows| - 1].seqNo == db.head.seqNo;
    }
  }

  lemma PruneKeepsInv(w: World, floor: int, cutoff: int)
    requires Inv(w) && (Verify(w.db, floor) == 0 ==> CountableTables(w.db))
    ensures Inv(PruneStep(w, floor, cutoff))
  {
    var w' := PruneStep(w, floor, cutoff);
    if w'.db != w.db {
      VerifiedIsCountable(w, floor);
      var n := PruneShape(w.db, floor, cutoff);
      var kept := KeptAccount(w, floor, n);
      AccountGrows(HeadMessage(w'.db.head), kept, w.issued, w'.issued);
      LedgerKept(w, w', w'.db.head, kept);
      PrunedTables(w.db, n, w.issued, w'.issued);
      OneHeadMore(w, w', w'.db.head);
    }
  }

  // One anchor more was written.
  lemma OneHeadMore(w: World, w': World, h: Head)
    requires Inv(w) && w'.lastSeq == w.lastSeq && w'.issued == w.issued + {HeadMessage(h)} && h.seqNo != -1
    requires AllKnown(w'.db, w'.issued) && LedgerOk(w')
    ensures Inv(w')
  {
  }

  // The tables and the anchor a prune of n rows leaves.
  lemma PrunedTables(db: Db, n: nat, s: set<Message>, s': set<Message>)
    requires Countable(db) && HeadValid(db.head) && AllKnown(db, s) && s <= s' && 0 < n < |db.rows|
    requires HeadMessage(Sealed(db.head.(baseSeq := db.rows[n - 1].seqNo, baseHash := db.rows[n - 1].hash))) in s'
    ensures var db' := Db(db.rows[n..], Sealed(db.head.(baseSeq := db.rows[n - 1].seqNo, baseHash := db.rows[n - 1].hash)));
            AllKnown(db', s') && HeadMessage(db'.head).headSeq == db.head.seqNo != -1
  {
    AllKnownGrows(db, s, s');
    assert db.rows[n..][|db.rows| - n - 1] == db.rows[|db.rows| - 1];
  }

  lemma AccountGrows(m: Message, a: Account, s: set<Message>, s': set<Message>)
    requires IsHeadMsg(m) && AccountOk(m, a, s) && s <= s'
    ensures AccountOk(m, a, s')
  {
    forall i | 0 <= i < |a.rows| ensures Known(a.rows[i].hash, s') { KnownGrows(a.rows[i].hash, s, s'); }
  }

  // Pruning n rows of a verified table leaves the account of the rows that remain.
  lemma KeptAccount(w: World, floor: int, n: nat) returns (kept: Account)
    requires Inv(w) && Countable(w.db) && HeadValid(w.db.head) && Verify(w.db, floor) == 0 && 0 < n < |w.db.rows|
    ensures var base := Tail(w.db.rows[n - 1].seqNo, w.db.rows[n - 1].hash);
            && kept == Kept(Carried(w), base)
            && AccountOk(HeadMessage(Sealed(w.db.head.(baseSeq := base.seqNo, baseHash := base.hash))), kept, w.issued)
  {
    VerifiedMatchesAccount(w, floor);
    VerifyZeroCountable(w.db, floor);
    var h, last := w.db.head, w.db.rows[n - 1];
    PrunedMessage(h, last.seqNo, last.hash);
    kept := KeptOk(w.db.rows, h, n, Carried(w), HeadMessage(Sealed(h.(baseSeq := last.seqNo, baseHash := last.hash))), w.issued);
  }

  lemma PrunedMessage(h: Head, seqNo: int, hash: Digest)
    ensures var m := HeadMessage(Sealed(h.(baseSeq := seqNo, baseHash := hash)));
            IsHeadMsg(m) && m.headHash == HeadMessage(h).headHash == h.hash && BaseHash(m) == hash
  {
  }

  lemma KeptOk(rows: seq<Row>, h: Head, n: nat, a: Account, m: Message, issued: set<Message>) returns (kept: Account)
    requires Ascending(rows) && Chained(rows, h.baseHash, h.legacyUntil) && 0 < n < |rows|
    requires AccountOk(HeadMessage(h), a, issued) && IsHeadMsg(m) && m.headHash == h.hash && BaseHash(m) == rows[n - 1].hash
    requires a.rows == rows[LegacyCount(rows, h.legacyUntil)..]
    requires a.start == HashBefore(rows, h.baseHash, LegacyCount(rows, h.legacyUntil))
    ensures kept == Kept(a, Tail(rows[n - 1].seqNo, rows[n - 1].hash))
    ensures AccountOk(m, kept, issued)
  {
    var k := LegacyCount(rows, h.legacyUntil);
    var j := if n <= k then 0 else n - k;
    KeptIsSuffix(rows, n, k, a, j);
    kept := Account(if j == 0 then a.start else rows[n - 1].hash, a.rows[j..]);
    KeptLinkedFrom(rows, n, k, j, a, h.hash, kept.start);
    KeptStartOk(rows, h, n, k, kept.start);
    KeptAvoidsBase(rows, h.baseHash, h.legacyUntil, n, k, a, j);
    KeptAccountOk(HeadMessage(h), m, a, j, kept.start, issued);
  }

  lemma KeptLinkedFrom(rows: seq<Row>, n: nat, k: nat, j: nat, a: Account, end: Digest, start: Digest)
    requires k <= |rows| && a.rows == rows[k..] && 0 < n < |rows| && Linked(a.start, a.rows, end)
    requires j == (if n <= k then 0 else n - k) && start == if j == 0 then a.start else rows[n - 1].hash
    ensures Linked(start, a.rows[j..], end)
  {
    KeptStart(rows, n, k, j, a.rows);
    KeptLinked(a, end, j, start);
  }

  lemma KeptStart(rows: seq<Row>, n: nat, k: nat, j: nat, keyed: seq<Row>)
    requires k <= |rows| && keyed == rows[k..] && 0 < n < |rows| && j == if n <= k then 0 else n - k
    ensures j <= |keyed| && (j > 0 ==> keyed[j - 1] == rows[n - 1])
  {
  }

  lemma KeptAccountOk(before: Message, m: Message, a: Account, j: nat, start: Digest, issued: set<Message>)
    requires IsHeadMsg(before) && IsHeadMsg(m) && AccountOk(before, a, issued) && j <= |a.rows|
    requires Linked(start, a.rows[j..], m.headHash) && (start == BaseHash(m) || !start.Mac?)
    requires forall i :: 0 <= i < |a.rows[j..]| ==> a.rows[j..][i].hash != BaseHash(m)
    ensures AccountOk(m, Account(start, a.rows[j..]), issued)
  {
    forall i | 0 <= i < |a.rows[j..]| ensures Known(a.rows[j..][i].hash, issued) { assert a.rows[j..][i] == a.rows[j + i]; }
  }

  lemma KeptStartOk(rows: seq<Row>, h: Head, n: nat, k: nat, start: Digest)
    requires Chained(rows, h.baseHash, h.legacyUntil) && 0 < n < |rows|
    requires k <= |rows| && (k > 0 ==> rows[k - 1].seqNo <= h.legacyUntil)
    requires start == if n <= k then rows[k - 1].hash else rows[n - 1].hash
    ensures start == rows[n - 1].hash || !start.Mac?
  {
    assert k > 0 ==> ValidAt(rows, h.baseHash, h.legacyUntil, k - 1);
  }

  lemma KeptIsSuffix(rows: seq<Row>, n: nat, k: nat, a: Account, j: nat)
    requires Ascending(rows) && 0 < n <= |rows| && k <= |rows| && a.rows == rows[k..]
    requires j == if n <= k then 0 else n - k
    ensures Kept(a, Tail(rows[n - 1].seqNo, rows[n - 1].hash))
         == Account(if j == 0 then a.start else rows[n - 1].hash, a.rows[j..])
  {
    AfterDropsPrefix(a.rows, j, rows[n - 1].seqNo) by {
      forall i | 0 <= i < |a.rows| ensures i < j <==> a.rows[i].seqNo <= rows[n - 1].seqNo {
        assert a.rows[i] == rows[k + i];
      }
    }
    if j > 0 { assert |a.rows[j..]| != |a.rows|; } else { assert a.rows[j..] == a.rows; }
  }

  lemma KeptLinked(a: Account, end: Digest, j: nat, start: Digest)
    requires Linked(a.start, a.rows, end) && j <= |a.rows|
    requires start == HashBefore(a.rows, a.start, j)
    ensures Linked(start, a.rows[j..], end)
  {
    forall i | 0 <= i < |a.rows[j..]| ensures LinkedAt(start, a.rows[j..], i) {
      assert LinkedAt(a.start, a.rows, j + i);
    }
  }

  lemma KeptAvoidsBase(rows: seq<Row>, start: Digest, legacyUntil: int, n: nat, k: nat, a: Account, j: nat)
    requires Chained(rows, start, legacyUntil) && 0 < n <= |rows| && k <= |rows| && a.rows == rows[k..]
    requires j == if n <= k then 0 else n - k
    ensures forall i :: 0 <= i < |a.rows[j..]| ==> a.rows[j..][i].hash != rows[n - 1].hash
  {
    ChainedSuffix(rows, start, legacyUntil, n);
    forall i | 0 <= i < |a.rows[j..]| ensures a.rows[j..][i].hash != rows[n - 1].hash {
      assert a.rows[j..][i] == rows[n..][k + j + i - n];
      ChainGrows(rows[n..], rows[n - 1].hash, legacyUntil, k + j + i - n);
    }
  }

  lemma ChainedSuffix(rows: seq<Row>, start: Digest, legacyUntil: int, n: nat)
    requires Chained(rows, start, legacyUntil) && n <= |rows|
    ensures Chained(rows[n..], HashBefore(rows, start, n), legacyUntil)
  {
    forall i | 0 <= i < |rows| - n
      ensures ValidAt(rows[n..], HashBefore(rows, start, n), legacyUntil, i)
    {
      assert ValidAt(rows, start, legacyUntil, n + i);
    }
  }

  lemma StepKeepsInv(w: World, s: Step)
    requires Inv(w) && Enabled(w, s)
    ensures Inv(Next(w, s))
  {
    match s
    case Append(floor, seqNo, t, ev) => AppendKeepsInv(w, floor, seqNo, t, ev);
    case Seal => SealKeepsInv(w);
    case Prune(floor, cutoff) => PruneKeepsInv(w, floor, cutoff);
    case Edit(_) =>
  }

  lemma InitialInv(w: World)
    requires Initial(w)
    ensures Inv(w)
  {
    if w != World(Db([], NO_HEAD.(present := true)), 0, {}, map[]) {
      var rows: seq<Row> :| CutoverOf(w, rows);
      AllKnownGrows(Db(rows, NO_HEAD), {}, w.issued);
      if rows != [] { assert Known(rows[|rows| - 1].hash, {}); }
    }
  }

  lemma {:induction false} RunKeepsInv(w: World, steps: seq<Step>, w': World)
    requires Inv(w) && Run(w, steps, w')
    ensures Inv(w')
    decreases |steps|
  {
    if steps != [] {
      StepKeepsInv(w, steps[0]);
      RunKeepsInv(Next(w, steps[0]), steps[1..], w');
    }
  }

  // Row r is what the Append step s was given.
  ghost predicate WrittenBy(r: Row, s: Step) {
    s.Append? && r.seqNo == s.seqNo && r.ev == Event(Time(s.t), s.ev.eventType, s.ev.actor, s.ev.target, s.ev.details)
  }

  ghost predicate AskedFor(m: Message, s: Step) {
    && m.EntryMsg? && s.Append? && m.seqNo == s.seqNo && m.at == s.t && m.eventType == s.ev.eventType
    && m.actor == s.ev.actor && m.target == s.ev.target && m.details == s.ev.details
  }

  // Every entry authenticated during a run was asked for by an Append of the run.
  lemma {:induction false} EntriesAskedFor(w: World, steps: seq<Step>, w': World, m: Message)
    requires Run(w, steps, w') && m.EntryMsg? && m in w'.issued && m !in w.issued
    ensures exists i :: 0 <= i < |steps| && AskedFor(m, steps[i])
    decreases |steps|
  {
    var v := Next(w, steps[0]);
    if m in v.issued {
      assert AskedFor(m, steps[0]);
    } else {
      EntriesAskedFor(v, steps[1..], w', m);
      var i :| 0 <= i < |steps[1..]| && AskedFor(m, steps[1..][i]);
      assert steps[1..][i] == steps[i + 1];
    }
  }

  lemma KeyedRowWritten(w: World, steps: seq<Step>, w': World, r: Row)
    requires Initial(w) && Run(w, steps, w') && r.ev.at.Time? && EntryMessage(r.prev, r.seqNo, r.ev.at.t, r.ev) in w'.issued
    ensures exists i :: 0 <= i < |steps| && WrittenBy(r, steps[i])
  {
    var m := EntryMessage(r.prev, r.seqNo, r.ev.at.t, r.ev);
    EntriesAskedFor(w, steps, w', m);
    var i :| 0 <= i < |steps| && AskedFor(m, steps[i]);
    assert WrittenBy(r, steps[i]);
  }

  /** Tamper evidence. After any run of honest transactions and keyless edits, a clean verdict under a valid
      anchor means: an honest transaction sealed this very anchor without a break, it is not below the
      floor, the keyed rows are exactly the account honest transactions left under it, each of them was
      authenticated by an Append on top of its predecessor and holds the event that Append was given, and the newest
      one is the anchored head. */
  lemma TamperEvidence(w: World, steps: seq<Step>, w': World, floor: int)
    requires Initial(w) && Run(w, steps, w')
    requires CountableTables(w'.db) && HeadValid(w'.db.head) && Verify(w'.db, floor) == 0
    ensures var h := w'.db.head;
            && HeadMessage(h) in w'.issued && h.broken == 0 && floor <= h.seqNo
            && HeadMessage(h) in w'.ledger && KeyedRows(w'.db) == w'.ledger[HeadMessage(h)].rows
            && (forall r :: r in KeyedRows(w'.db) ==>
                  r.ev.at.Time? && EntryMessage(r.prev, r.seqNo, r.ev.at.t, r.ev) in w'.issued)
            && (forall r :: r in KeyedRows(w'.db) ==> exists i :: 0 <= i < |steps| && WrittenBy(r, steps[i]))
            && Linked(w'.ledger[HeadMessage(h)].start, KeyedRows(w'.db), h.hash)
            && WalkEnd(w'.db.rows, WalkStart(h)).seqNo == h.seqNo
  {
    InitialInv(w);
    RunKeepsInv(w, steps, w');
    VerifiedMatchesAccount(w', floor);
    VerifiedIsCountable(w', floor);
    VerifyZeroCountable(w'.db, floor);
    AccountIssued(HeadMessage(w'.db.head), w'.ledger[HeadMessage(w'.db.head)], w'.issued);
    forall r | r in KeyedRows(w'.db) ensures exists i :: 0 <= i < |steps| && WrittenBy(r, steps[i]) {
      KeyedRowWritten(w, steps, w', r);
    }
  }

  lemma AccountIssued(m: Message, a: Account, issued: set<Message>)
    requires IsHeadMsg(m) && AccountOk(m, a, issued)
    ensures forall r :: r in a.rows ==> r.ev.at.Time? && EntryMessage(r.prev, r.seqNo, r.ev.at.t, r.ev) in issued
  {
    forall r | r in a.rows ensures r.ev.at.Time? && EntryMessage(r.prev, r.seqNo, r.ev.at.t, r.ev) in issued {
      var i :| 0 <= i < |a.rows| && a.rows[i] == r;
      assert LinkedAt(a.start, a.rows, i) && Known(a.rows[i].hash, issued);
    }
  }
}
