// Recovery of any disk a crash may leave: Open of internal/repo/core/engine_lifecycle.go.
module Reopen {
  import opened Common
  import opened Bytes
  import opened Frames
  import opened Snapshots
  import opened Headers
  import opened Recovery
  import opened Durability

  ghost function CutSteps(segs: seq<Segment>, tail: seq<byte>, k: nat): seq<Step>
    requires k <= |segs|
  {
    if k < |segs| || tail != [] then [Truncate(DATA_START + Pos(segs, k))] else []
  }

  lemma {:induction false} CutDisk(d: Disk, segs: seq<Segment>, tail: seq<byte>, k: nat)
    requires d.area == AreaBytes(segs) + tail && k <= |segs|
    ensures Do(d, Truncate(DATA_START + Pos(segs, k))) == d.(area := AreaBytes(segs[..k]))
    ensures DoAll(d, CutSteps(segs, tail, k)) == d.(area := AreaBytes(segs[..k]))
  {
    CutArea(segs, k);
    if k < |segs| || tail != [] {
      OneStep(d, Truncate(DATA_START + Pos(segs, k)));
      assert d.area[..Pos(segs, k)] == AreaBytes(segs)[..Pos(segs, k)];
    } else {
      assert segs[..k] == segs && d.area == AreaBytes(segs);
      assert d.area[..Pos(segs, k)] == d.area;
    }
  }

  lemma {:induction false} FullScan(crc: Checksum, d: Disk, segs: seq<Segment>, tail: seq<byte>, snapOff: nat)
    requires AllOk(crc, segs) && Torn(crc, tail) && d.area == AreaBytes(segs) + tail
    requires Silent(crc, d.area, segs)
    requires snapOff == 0 || DATA_START + Pos(segs, RecEnd(segs)) <= snapOff
    ensures var k := RecEnd(segs);
            Scan(crc, d.area, 0, map[], snapOff) == Scanned(Replay(segs), Pos(segs, k), k < |segs| || tail != [])
  {
    hide Scan;
    hide Silent;
    hide Torn;
    OkNonEmpty(crc, segs);
    hide AllOk;
    assert Passable(segs, 0, snapOff) by {
      forall i | 0 <= i < RecEnd(segs) && segs[i].Blob?
        ensures !InSnapshotArea(snapOff, Pos(segs, i))
      {
        PosMonotone(segs, i, RecEnd(segs));
      }
    }
    ScanLayout(crc, segs, tail, 0, snapOff);
    assert segs[..0] == [];
  }

  /** The first steps and result of an Open that does not use a snapshot. */
  lemma {:induction false} OpenByScan(crc: Checksum, d: Disk, segs: seq<Segment>, tail: seq<byte>, l: Loaded)
    requires AllOk(crc, segs) && Torn(crc, tail) && d.area == AreaBytes(segs) + tail
    requires Silent(crc, d.area, segs)
    requires LoadHeaders(crc, d.slotA, d.slotB) == Some(l)
    requires var h := l.Active();
             h.snapOff == 0 || (h.snapLen > 0 && DATA_START + Pos(segs, RecEnd(segs)) <= h.snapOff &&
                                h.snapOff + h.snapLen > DATA_START + |d.area|)
    ensures Open(crc, d).Some?
    ensures var h, k, p := l.Active(), RecEnd(segs), Open(crc, d).value;
            && p.steps == CutSteps(segs, tail, k) + (if h.snapOff == 0 then [] else [WriteSlot(l.activeB, ToBytes(crc, Cleared(h)))])
            && p.engine.disk == DoAll(d, p.steps) && p.engine.index == Replay(segs)
            && p.engine.nextOffset == DATA_START + Pos(segs, k) && p.engine.activeB == l.activeB
            && p.engine.Active() == (if h.snapOff == 0 then h else Cleared(h))
  {
    hide Scan;
    hide Parse;
    hide ToBytes;
    hide LoadHeaders;
    FullScan(crc, d, segs, tail, l.Active().snapOff);
    assert RestoreFromSnapshot(crc, d.area, l.Active()) == Restored(map[], 0, false, l.Active().snapOff != 0);
    hide RestoreFromSnapshot;
    hide RecoverRecordAreaEnd;
    hide AllOk;
    hide Silent;
    hide Torn;
    hide DoAll;
    hide Replay;
    hide AreaBytes;
    hide RecEnd;
  }

  /** An Open through the snapshot the active header names: no frame is read, and blobs behind it are cut. */
  lemma {:induction false} OpenBySnapshot(crc: Checksum, d: Disk, segs: seq<Segment>, tail: seq<byte>, l: Loaded, r: nat, b: nat)
    requires AllOk(crc, segs) && Torn(crc, tail) && d.area == AreaBytes(segs) + tail
    requires Silent(crc, d.area, segs)
    requires LoadHeaders(crc, d.slotA, d.slotB) == Some(l) && NamedAt(l.Active(), segs, r, b)
    ensures Open(crc, d).Some?
    ensures var h, p, cut := l.Active(), Open(crc, d).value, CutSteps(segs, tail, b + 1);
            && p.steps == cut && p.engine.disk == DoAll(d, p.steps) && p.engine.index == Replay(segs)
            && p.engine.nextOffset == DATA_START + Pos(segs, if cut == [] then r else b + 1)
            && p.engine.activeB == l.activeB && p.engine.Active() == h
  {
    hide Scan;
    hide LoadHeaders;
    hide RestoreFromSnapshot;
    hide WalkRecordArea;
    hide DoAll;
    hide Replay;
    hide AreaBytes;
    hide Silent;
    hide Torn;
    RestoresNamed(crc, d, segs, tail, l.Active(), r, b);
    RecEndBefore(segs, r);
    ScanResidue(crc, segs, tail, b + 1, Replay(segs), l.Active().snapOff);
    OkNonEmpty(crc, segs);
    PosOrder(segs, r, b);
    PosMonotone(segs, b, |segs|);
    PosEnd(segs);
    hide AllOk;
  }

  lemma {:induction false} RestoresNamed(crc: Checksum, d: Disk, segs: seq<Segment>, tail: seq<byte>, h: FileHeader, r: nat, b: nat)
    requires AllOk(crc, segs) && d.area == AreaBytes(segs) + tail && NamedAt(h, segs, r, b)
    ensures RestoreFromSnapshot(crc, d.area, h) == Restored(Replay(segs), Pos(segs, b + 1), true, false)
  {
    hide BlobBytes;
    hide Parse;
    hide Encode;
    hide Replay;
    hide AreaBytes;
    assert segs[b] in segs;
    SegmentAt(segs, tail, b);
    PosStep(segs, b);
    ParseBlob(crc, segs[b].secs);
    FirstByte(crc, segs[b]);
    hide AllOk;
  }

  lemma {:induction false} LoadedFits(crc: Checksum, d: Disk, l: Loaded)
    requires LoadHeaders(crc, d.slotA, d.slotB) == Some(l)
    ensures l.Active().Fits() && l.Active().version == FORMAT_VERSION
    ensures FromBytes(crc, d.Slot(l.activeB)) == Some(l.Active()) && ValidHeader(crc, d, l.Active())
  {
    DecodedFits(crc, d.Slot(l.activeB));
    hide FromBytes;
  }

  /** Clearing the active header in place changes no commit id, so it stays the one selected. */
  lemma {:induction false} LoadAfterClear(crc: Checksum, d: Disk, l: Loaded, t: seq<byte>)
    requires LoadHeaders(crc, d.slotA, d.slotB) == Some(l) && FromBytes(crc, t) == Some(Cleared(l.Active()))
    ensures var l' := LoadHeaders(crc, d.WithSlot(l.activeB, t).slotA, d.WithSlot(l.activeB, t).slotB);
            l'.Some? && l'.value.activeB == l.activeB && l'.value.Active() == Cleared(l.Active())
  {
    hide FromBytes;
  }

  /** Every valid header still names a whole blob once the area is cut behind the active one's. */
  lemma {:induction false} AllStrongAfterCut(crc: Checksum, d: Disk, d': Disk, segs: seq<Segment>, h: FileHeader, r: nat, b: nat)
    requires AllOk(crc, segs) && NamedAt(h, segs, r, b) && AllStrong(crc, d, segs, h)
    requires d'.slotA == d.slotA && d'.slotB == d.slotB
    ensures AllStrong(crc, d', segs[..b + 1], h)
  {
    hide FromBytes;
    OkNonEmpty(crc, segs);
    forall x | ValidHeader(crc, d', x)
      ensures Strong(x, segs[..b + 1]) && (x.snapOff == 0 || x.snapOff <= h.snapOff)
    {
      assert ValidHeader(crc, d, x);
      if x.snapOff != 0 {
        var rx: nat, bx: nat :| NamedAt(x, segs, rx, bx);
        PosOrder(segs, bx, b);
        NamedAfterCut(x, segs, b + 1, rx, bx);
      }
    }
  }

  lemma {:induction false} PrefixOk(crc: Checksum, segs: seq<Segment>, k: nat)
    requires AllOk(crc, segs) && k <= |segs|
    ensures AllOk(crc, segs[..k])
  {
  }

  /** Opening through the snapshot gives an engine in step with the same frames. */
  lemma {:induction false} SnapshotOpenInv(crc: Checksum, d: Disk, segs: seq<Segment>, tail: seq<byte>, l: Loaded, r: nat, b: nat)
    returns (left: seq<Segment>, c: nat)
    requires SlotSizes(d) && AllOk(crc, segs) && Torn(crc, tail) && d.area == AreaBytes(segs) + tail
    requires Silent(crc, d.area, segs)
    requires LoadHeaders(crc, d.slotA, d.slotB) == Some(l) && NamedAt(l.Active(), segs, r, b)
    requires AllStrong(crc, d, segs, l.Active())
    ensures Open(crc, d).Some? && Inv(crc, Open(crc, d).value.engine, left, c) && Recs(left) == Recs(segs)
  {
    hide Open;
    hide LoadHeaders;
    hide AllStrong;
    hide Replay;
    hide Recs;
    hide AreaBytes;
    hide BlobBytes;
    hide Encode;
    hide Silent;
    OpenBySnapshot(crc, d, segs, tail, l, r, b);
    CutDisk(d, segs, tail, b + 1);
    var e := Open(crc, d).value.engine;
    left := segs[..b + 1];
    c := if CutSteps(segs, tail, b + 1) == [] then r else b + 1;
    AllStrongAfterCut(crc, d, e.disk, segs, l.Active(), r, b);
    PrefixOk(crc, segs, b + 1);
    ReplayRange(segs, b + 1, |segs|);
    assert segs[..|segs|] == segs;
    PosStep(segs, b);
    assert left[..c] == segs[..c];
    assert segs[b] in segs;
    FirstByte(crc, segs[b]);
    hide AllOk;
    hide DoAll;
  }

  lemma {:induction false} ScanOpenDisk(crc: Checksum, d: Disk, segs: seq<Segment>, tail: seq<byte>, l: Loaded)
    requires SlotSizes(d) && AllOk(crc, segs) && Torn(crc, tail) && d.area == AreaBytes(segs) + tail
    requires Silent(crc, d.area, segs)
    requires LoadHeaders(crc, d.slotA, d.slotB) == Some(l)
    requires var h := l.Active();
             h.snapOff == 0 || (h.snapLen > 0 && DATA_START + Pos(segs, RecEnd(segs)) <= h.snapOff &&
                                h.snapOff + h.snapLen > DATA_START + |d.area|)
    ensures Open(crc, d).Some?
    ensures var e := Open(crc, d).value.engine;
            && HeadersInStep(crc, e) && e.Active().snapOff == 0 && SlotSizes(e.disk)
            && e.disk.area == AreaBytes(segs[..RecEnd(segs)])
  {
    OpenByScan(crc, d, segs, tail, l);
    hide Open;
    hide RecEnd;
    hide AreaBytes;
    hide AllOk;
    hide Torn;
    hide Silent;
    hide CutSteps;
    hide DoAll;
    hide Replay;
    hide Pos;
    hide LoadHeaders;
    hide FromBytes;
    hide ToBytes;
    var k := RecEnd(segs);
    CutDisk(d, segs, tail, k);
    if l.Active().snapOff != 0 {
      ClearedDisk(crc, d, CutSteps(segs, tail, k), d.(area := AreaBytes(segs[..k])), l);
    } else {
      assert CutSteps(segs, tail, k) + [] == CutSteps(segs, tail, k);
    }
  }

  lemma {:induction false} ClearedDisk(crc: Checksum, d: Disk, steps: seq<Step>, cut: Disk, l: Loaded)
    requires DoAll(d, steps) == cut && SlotSizes(cut) && LoadHeaders(crc, cut.slotA, cut.slotB) == Some(l)
    ensures var d' := DoAll(d, steps + [WriteSlot(l.activeB, ToBytes(crc, Cleared(l.Active())))]);
            && SlotSizes(d') && d'.area == cut.area && LoadHeaders(crc, d'.slotA, d'.slotB).Some?
            && var l' := LoadHeaders(crc, d'.slotA, d'.slotB).value;
               l'.activeB == l.activeB && l'.Active() == Cleared(l.Active())
  {
    hide DoAll;
    var clear := WriteSlot(l.activeB, ToBytes(crc, Cleared(l.Active())));
    LoadedFits(crc, cut, l);
    HeaderRoundTrip(crc, Cleared(l.Active()));
    hide FromBytes;
    hide ToBytes;
    hide LoadHeaders;
    DoAllSplit(d, steps, [clear]);
    OneStep(cut, clear);
    LoadAfterClear(crc, cut, l, clear.bytes);
  }

  /** Opening by a full scan gives an engine in step with the same frames, and a header that names no snapshot. */
  lemma {:induction false} ScanOpenInv(crc: Checksum, d: Disk, segs: seq<Segment>, tail: seq<byte>, l: Loaded)
    returns (left: seq<Segment>, c: nat)
    requires SlotSizes(d) && AllOk(crc, segs) && Torn(crc, tail) && d.area == AreaBytes(segs) + tail
    requires Silent(crc, d.area, segs)
    requires LoadHeaders(crc, d.slotA, d.slotB) == Some(l)
    requires var h := l.Active();
             h.snapOff == 0 || (h.snapLen > 0 && DATA_START + Pos(segs, RecEnd(segs)) <= h.snapOff &&
                                h.snapOff + h.snapLen > DATA_START + |d.area|)
    ensures Open(crc, d).Some? && Inv(crc, Open(crc, d).value.engine, left, c) && Recs(left) == Recs(segs)
  {
    OpenByScan(crc, d, segs, tail, l);
    ScanOpenDisk(crc, d, segs, tail, l);
    hide Open;
    hide HeadersInStep;
    hide Replay;
    hide Recs;
    hide AreaBytes;
    var k := RecEnd(segs);
    left, c := segs[..k], k;
    PrefixOk(crc, segs, k);
    RecEndFacts(segs);
    ReplayRange(segs, k, |segs|);
    assert segs[..|segs|] == segs && left[..k] == left;
    hide AllOk;
    hide RecEnd;
  }

  /** Any disk a crash may leave opens, and the engine it opens to holds exactly its frames. */
  lemma {:induction false} OpenInv(crc: Checksum, d: Disk, segs: seq<Segment>, tail: seq<byte>)
    returns (left: seq<Segment>, c: nat)
    requires DiskOk(crc, d, segs, tail) && Silent(crc, d.area, segs)
    ensures Open(crc, d).Some? && Inv(crc, Open(crc, d).value.engine, left, c) && Recs(left) == Recs(segs)
  {
    hide Open;
    hide FromBytes;
    hide Inv;
    var l := ActiveOf(crc, d);
    var h := l.Active();
    LoadedFits(crc, d, l);
    if h.snapOff != 0 && AllStrong(crc, d, segs, h) {
      var r: nat, b: nat :| NamedAt(h, segs, r, b);
      left, c := SnapshotOpenInv(crc, d, segs, tail, l, r, b);
    } else {
      left, c := ScanOpenInv(crc, d, segs, tail, l);
    }
  }

  // ---- Where records end, for a file of either age ----

  /**
   * A record end the header carries is taken while it lies between the data start and the snapshot, inside the file. A
   * header without one, on a whole file, gives the end of the last frame, and 0 where there is none.
   */
  lemma {:induction false} RecordEndOfEitherAge(crc: Checksum, segs: seq<Segment>, h: FileHeader)
    requires AllOk(crc, segs) && forall s :: s in segs && s.Rec? ==> s.frame.flags <= 1
    ensures var end := RecoverRecordAreaEnd(crc, AreaBytes(segs), h);
            && (DATA_START <= h.recordEnd <= h.snapOff && h.recordEnd <= DATA_START + |AreaBytes(segs)| ==> end == h.recordEnd)
            && (h.recordEnd == 0 || h.snapOff < h.recordEnd || DATA_START + |AreaBytes(segs)| < h.recordEnd ==>
                  end == if RecEnd(segs) == 0 then 0 else DATA_START + Pos(segs, RecEnd(segs)))
  {
    WalkLayout(crc, segs, 0);
    assert segs[..0] == [];
    assert WalkedEnd(segs, 0) == 0 && Pos(segs, 0) == 0;
    hide AllOk;
    hide WalkRecordArea;
    hide AreaBytes;
  }
}
