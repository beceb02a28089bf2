/** The writer and verifier as they run: several Repo objects (processes), each with its own high-water
    mark, over one Store (the two tables). Each method is one locked transaction. */
module AuditRepo {
  import opened AuditChain
  import opened AuditVerdict

  class Store {
    var rows: seq<Row>
    var head: Head

    ghost function Contents(): Db
      reads this
    {
      Db(rows, head)
    }

    constructor ()
      ensures Contents() == Db([], NO_HEAD.(present := true))
    {
      rows, head := [], NO_HEAD.(present := true);
    }
  }

  class Repo {
    const store: Store
    var floor: int

    constructor (store: Store)
      ensures this.store == store && floor == 0
    {
      this.store, floor := store, 0;
    }

    method RaiseFloor(seqNo: int)
      modifies this`floor
      ensures floor == Max(old(floor), seqNo)
    {
      if seqNo > floor { floor := seqNo; }
    }

    method Observe(h: Head)
      modifies this`floor
      ensures floor == if HeadValid(h) then Max(old(floor), h.seqNo) else old(floor)
    {
      if HeadValid(h) { RaiseFloor(h.seqNo); }
    }

    method Append(seqNo: int, t: int, ev: Event)
      modifies this`floor, store
      ensures store.Contents() == AppendTx(old(store.Contents()), old(floor), seqNo, t, ev)
      ensures if HasSeq(old(store.rows), seqNo) then store.Contents() == old(store.Contents())
              else AppendDone(old(store.Contents()), old(floor), seqNo, t, ev, store.Contents())
      ensures floor == if HasSeq(old(store.rows), seqNo) then old(floor) else Max(old(floor), seqNo)
    {
      if HasSeq(store.rows, seqNo) { return; }
      AppendStores(store.Contents(), floor, seqNo, t, ev);
      var h, tail := store.head, ReadTail(store.rows);
      var broken := AnchorBreak(h, tail, floor, false);
      if HeadValid(h) && h.broken != 0 { broken := h.broken; }
      var entryHash := Mac(EntryMessage(tail.hash, seqNo, t, ev));
      store.rows := Insert(store.rows, Row(seqNo, ev.(at := Time(t)), tail.hash, entryHash));
      store.head := Sealed(Head(true, h.legacyUntil, seqNo, entryHash, broken, h.mac, h.baseSeq, h.baseHash));
      RaiseFloor(seqNo);
    }

    method SealAnchor(legacyMigrated: bool)
      modifies this`floor, store
      ensures store.Contents() == SealTx(old(store.Contents()), legacyMigrated)
      ensures SealDone(old(store.Contents()), legacyMigrated, store.Contents())
      ensures floor == if !IsSealed(old(store.head)) then Max(old(floor), ReadTail(old(store.rows)).seqNo)
                       else if HeadValid(old(store.head)) then Max(old(floor), old(store.head).seqNo)
                       else old(floor)
    {
      SealStores(store.Contents(), legacyMigrated);
      var h := store.head;
      if h.present && h.mac != BLANK {
        Observe(h);
        return;
      }
      var tail := ReadTail(store.rows);
      store.head := Sealed(Head(true, h.legacyUntil, tail.seqNo, tail.hash,
                                AnchorBreak(h, tail, 0, legacyMigrated), h.mac, h.baseSeq, h.baseHash));
      RaiseFloor(tail.seqNo);
    }

    method VerifyRows(h: Head) returns (bad: int, last: Tail)
      ensures bad == FirstBad(store.rows, WalkStart(h).hash, h.legacyUntil)
      ensures last == WalkEnd(store.rows, WalkStart(h))
    {
      bad, last := 0, NO_TAIL;
      if HeadValid(h) { last := Tail(h.baseSeq, h.baseHash); }
      ghost var verdict := FirstBad(store.rows, WalkStart(h).hash, h.legacyUntil);
      for i := 0 to |store.rows|
        invariant last == WalkEnd(store.rows[..i], WalkStart(h))
        invariant verdict == if bad != 0 then bad else FirstBad(store.rows[i..], last.hash, h.legacyUntil)
      {
        var r := store.rows[i];
        assert store.rows[i..][1..] == store.rows[i + 1..];
        if bad == 0 && !RowValid(r, last.hash, h.legacyUntil) {
          bad := r.seqNo;
        }
        last := Tail(r.seqNo, r.hash);
      }
      assert store.rows[..|store.rows|] == store.rows;
    }

    method VerifyTx(h: Head, seenFloor: int) returns (bad: int)
      requires h == store.head
      modifies this`floor
      ensures bad == Verify(store.Contents(), seenFloor) && Least(store.Contents(), seenFloor, bad)
      ensures floor == if HeadValid(h) then Max(old(floor), h.seqNo) else old(floor)
    {
      VerdictIsLeast(store.Contents(), seenFloor);
      var rowBad, tail := VerifyRows(h);
      Observe(h);
      var anchorBad := AnchorBreak(h, tail, seenFloor, false);
      if HeadValid(h) && h.broken != 0 && (anchorBad == 0 || h.broken < anchorBad) {
        anchorBad := h.broken;
      }
      if rowBad == 0 { return anchorBad; }
      if anchorBad == 0 || rowBad < anchorBad { return rowBad; }
      return anchorBad;
    }

    method PruneBoundaryScan(cutoff: int, headSeq: int) returns (base: Tail)
      ensures base == PruneBoundary(store.rows, cutoff, headSeq)
    {
      base := NO_TAIL;
      var i := 0;
      while i < |store.rows| && Due(store.rows[i], cutoff, headSeq)
        invariant 0 <= i <= |store.rows|
        invariant base == ReadTail(store.rows[..i])
        invariant DueRun(store.rows, cutoff, headSeq) == i + DueRun(store.rows[i..], cutoff, headSeq)
      {
        assert store.rows[i..][1..] == store.rows[i + 1..];
        base := Tail(store.rows[i].seqNo, store.rows[i].hash);
        i := i + 1;
      }
    }

    method Prune(cutoff: int) returns (bad: int)
      modifies this`floor, store
      ensures bad == Verify(old(store.Contents()), old(floor)) && Least(old(store.Contents()), old(floor), bad)
      ensures store.Contents() == PruneTx(old(store.Contents()), old(floor), cutoff)
      ensures Ascending(old(store.rows)) ==> PruneDone(old(store.Contents()), bad, cutoff, store.Contents())
      ensures floor == if HeadValid(old(store.head)) then Max(old(floor), old(store.head).seqNo) else old(floor)
    {
      if Ascending(store.rows) { PruneStores(store.Contents(), floor, cutoff); }
      var h := store.head;
      bad := VerifyTx(h, floor);
      if bad != 0 { return; }
      var base := PruneBoundaryScan(cutoff, h.seqNo);
      if base.seqNo == 0 { return; }
      store.rows := After(store.rows, base.seqNo);
      store.head := Sealed(h.(baseSeq := base.seqNo, baseHash := base.hash));
    }
  }
}
