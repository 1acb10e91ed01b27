// The engine as a sequence of disk steps, and what a crash after any byte of any step leaves behind:
// internal/repo/core/engine_lifecycle.go, engine_write.go, engine_delete.go and reclaim.go.
module Durability {
  import opened Common
  import opened Bytes
  import opened Frames
  import opened Snapshots
  import opened Headers
  import opened Recovery

  /** The file: two header slots and the record area behind them. */
  datatype Disk = Disk(slotA: seq<byte>, slotB: seq<byte>, area: seq<byte>)
  {
    function Slot(b: bool): seq<byte> { if b then slotB else slotA }

    function WithSlot(b: bool, bytes: seq<byte>): Disk {
      if b then this.(slotB := bytes) else this.(slotA := bytes)
    }
  }

  /** Truncate sizes are file sizes; cutting into the headers is outside the model and never asked for. */
  datatype Step = Truncate(size: nat) | Append(bytes: seq<byte>) | WriteSlot(toB: bool, bytes: seq<byte>)

  function Do(d: Disk, s: Step): Disk
  {
    match s
    case Truncate(n) => if DATA_START <= n <= DATA_START + |d.area| then d.(area := d.area[..n - DATA_START]) else d
    case Append(b) => d.(area := d.area + b)
    case WriteSlot(toB, b) => d.WithSlot(toB, b)
  }

  function DoAll(d: Disk, steps: seq<Step>): Disk
    decreases steps
  {
    if steps == [] then d else DoAll(Do(d, steps[0]), steps[1..])
  }

  /** A step stopped after k bytes. A truncation is one metadata change: it happened or it did not. */
  function Cut(d: Disk, s: Step, k: nat): Disk
  {
    match s
    case Truncate(_) => d
    case Append(b) => if k <= |b| then d.(area := d.area + b[..k]) else d
    case WriteSlot(toB, b) =>
      if k <= |b| && |d.Slot(toB)| == |b| then d.WithSlot(toB, b[..k] + d.Slot(toB)[k..]) else d
  }

  /** The disk left by a crash in step i after k of its bytes. */
  function Crash(d: Disk, steps: seq<Step>, i: nat, k: nat): Disk
    requires i < |steps|
  {
    Cut(DoAll(d, steps[..i]), steps[i], k)
  }

  /** The engine's fields; offsets are absolute. */
  datatype Engine = Engine(disk: Disk, hA: FileHeader, hB: FileHeader, activeB: bool, index: Index, nextOffset: nat)
  {
    function Active(): FileHeader { if activeB then hB else hA }

    /** switchHeader: the header just written to the inactive slot becomes the active one. */
    function Switched(h: FileHeader): Engine {
      if activeB then this.(hA := h, activeB := false) else this.(hB := h, activeB := true)
    }
  }

  // ---- Operations ----

  function NullHeader(h: FileHeader): FileHeader { h.(commit := h.commit + 1, snapOff := 0, snapLen := 0) }

  predicate SnapshotAtTail(h: FileHeader, size: nat)
  {
    h.NamesSnapshot() && h.snapOff + h.snapLen == DATA_START + size
  }

  function TrimSteps(crc: Checksum, e: Engine): seq<Step>
  {
    if SnapshotAtTail(e.Active(), |e.disk.area|)
    then [Truncate(e.nextOffset), WriteSlot(!e.activeB, ToBytes(crc, NullHeader(e.Active())))]
    else []
  }

  function AfterTrim(crc: Checksum, e: Engine): Engine
  {
    if SnapshotAtTail(e.Active(), |e.disk.area|)
    then e.(disk := DoAll(e.disk, TrimSteps(crc, e))).Switched(NullHeader(e.Active()))
    else e
  }

  function FrameSteps(crc: Checksum, fs: seq<Frame>): seq<Step>
  {
    seq(|fs|, i requires 0 <= i < |fs| => Append(Encode(crc, fs[i])))
  }

  function MergeAll(idx: Index, fs: seq<Frame>, offset: nat): Index
    decreases fs
  {
    if fs == [] then idx else MergeAll(Merge(idx, fs[0], offset), fs[1..], offset + fs[0].Size())
  }

  /** One batch: trim a trailing snapshot, then append the frames. A delete batch appends tombstones. */
  function BatchSteps(crc: Checksum, e: Engine, fs: seq<Frame>): seq<Step>
  {
    if fs == [] then [] else TrimSteps(crc, e) + FrameSteps(crc, fs)
  }

  function AfterBatch(crc: Checksum, e: Engine, fs: seq<Frame>): Engine
  {
    if fs == [] then e
    else
      var t := AfterTrim(crc, e);
      var start := |t.disk.area|;
      var d := DoAll(e.disk, BatchSteps(crc, e, fs));
      t.(disk := d, index := MergeAll(t.index, fs, DATA_START + start), nextOffset := DATA_START + |d.area|)
  }

  ghost function LiveKeys(idx: Index): set<(uint64, uint64)>
  {
    set a, i | a in idx && i in idx[a] :: (a, i)
  }

  ghost function TotalRecords(idx: Index): nat { |LiveKeys(idx)| }

  ghost function CheckpointHeader(e: Engine, blobLen: nat): FileHeader
  {
    e.Active().(commit := e.Active().commit + 1, snapOff := DATA_START + |e.disk.area|, snapLen := blobLen,
                recordCount := TotalRecords(e.index), recordEnd := e.nextOffset)
  }

  ghost function CheckpointSteps(crc: Checksum, e: Engine, blob: seq<byte>): seq<Step>
  {
    [Append(blob), WriteSlot(!e.activeB, ToBytes(crc, CheckpointHeader(e, |blob|)))]
  }

  ghost function AfterCheckpoint(crc: Checksum, e: Engine, blob: seq<byte>): Engine
  {
    e.(disk := DoAll(e.disk, CheckpointSteps(crc, e, blob))).Switched(CheckpointHeader(e, |blob|))
  }

  // ---- Opening ----

  datatype Restored = Restored(index: Index, start: nat, loaded: bool, corrupt: bool)

  /** restoreFromSnapshot: an unreadable snapshot costs a full scan, not the file. */
  function RestoreFromSnapshot(crc: Checksum, area: seq<byte>, h: FileHeader): Restored
  {
    if !h.NamesSnapshot() then Restored(map[], 0, false, false)
    else if h.snapOff < DATA_START || h.snapOff + h.snapLen > DATA_START + |area| then Restored(map[], 0, false, true)
    else
      var from := h.snapOff - DATA_START;
      match Parse(crc, area[from..from + h.snapLen])
      case None => Restored(map[], 0, false, true)
      case Some(idx) => Restored(idx, from + h.snapLen, true, false)
  }

  /** recoverRecordAreaEnd: the header's own RecordEnd, or a walk of the area for a file that carries none. */
  function RecoverRecordAreaEnd(crc: Checksum, area: seq<byte>, h: FileHeader): nat
  {
    if DATA_START <= h.recordEnd <= h.snapOff && h.recordEnd <= DATA_START + |area| then h.recordEnd
    else
      match WalkRecordArea(crc, area, 0, 0)
      case Some(end) => end
      case None => h.snapOff
  }

  function Cleared(h: FileHeader): FileHeader { h.(snapOff := 0, snapLen := 0) }

  datatype Plan = Plan(steps: seq<Step>, engine: Engine)

  /** Open as steps on the disk and the engine they lead to; None when both headers are refused. */
  function Open(crc: Checksum, d: Disk): Option<Plan>
  {
    match LoadHeaders(crc, d.slotA, d.slotB)
    case None => None
    case Some(l) =>
      var h := l.Active();
      var from := RestoreFromSnapshot(crc, d.area, h);
      var got := Scan(crc, d.area, from.start, from.index, h.snapOff);
      var cut := if got.truncate then [Truncate(DATA_START + got.end)] else [];
      var next := if !got.truncate && from.loaded && got.end == from.start
                  then RecoverRecordAreaEnd(crc, d.area, h) else DATA_START + got.end;
      var clear := if from.corrupt then [WriteSlot(l.activeB, ToBytes(crc, Cleared(h)))] else [];
      var hA := if from.corrupt && !l.activeB then Cleared(h) else l.hA;
      var hB := if from.corrupt && l.activeB then Cleared(h) else l.hB;
      Some(Plan(cut + clear, Engine(DoAll(d, cut + clear), hA, hB, l.activeB, got.index, next)))
  }

  function Created(crc: Checksum): Engine
  {
    var h := NewFileHeader();
    Engine(Disk(ToBytes(crc, h), ToBytes(crc, h), []), h, h, false, map[], DATA_START)
  }

  // ---- Invariants ----

  /** h names the blob at segment b; behind segment r there are only blobs, and the blob is the whole index. */
  ghost predicate NamedAt(h: FileHeader, segs: seq<Segment>, r: nat, b: nat)
  {
    && r <= b < |segs| && segs[b].Blob? && BlobRange(segs, r, |segs|)
    && h.recordEnd == DATA_START + Pos(segs, r)
    && h.snapOff == DATA_START + Pos(segs, b) && h.snapLen == |segs[b].bytes|
    && SectionsIndex(segs[b].secs) == Replay(segs)
  }

  ghost predicate Strong(h: FileHeader, segs: seq<Segment>)
  {
    h.snapOff == 0 || exists r: nat, b: nat :: NamedAt(h, segs, r, b)
  }

  /** As Strong, except that a truncation may already have taken the blob. */
  ghost predicate Weak(h: FileHeader, segs: seq<Segment>, size: nat)
  {
    h.snapOff == 0 || (
      h.snapLen > 0 && DATA_START + Pos(segs, RecEnd(segs)) <= h.snapOff &&
      (h.snapOff + h.snapLen <= DATA_START + size ==> Strong(h, segs)))
  }

  ghost predicate ValidHeader(crc: Checksum, d: Disk, h: FileHeader)
  {
    FromBytes(crc, d.slotA) == Some(h) || FromBytes(crc, d.slotB) == Some(h)
  }

  /** Every header that reads back is one recovery may trust. */
  ghost predicate AllStrong(crc: Checksum, d: Disk, segs: seq<Segment>, active: FileHeader)
  {
    forall h :: ValidHeader(crc, d, h) ==> Strong(h, segs) && (h.snapOff == 0 || h.snapOff <= active.snapOff)
  }

  ghost predicate AllWeak(crc: Checksum, d: Disk, segs: seq<Segment>)
  {
    forall h :: ValidHeader(crc, d, h) ==> Weak(h, segs, |d.area|)
  }

  ghost predicate SlotSizes(d: Disk) { |d.slotA| == HEADER_SIZE && |d.slotB| == HEADER_SIZE }

  /** A disk any crash may leave: its frames are those of segs, whatever residue lies among and behind them. */
  ghost predicate DiskOk(crc: Checksum, d: Disk, segs: seq<Segment>, tail: seq<byte>)
  {
    && SlotSizes(d) && AllOk(crc, segs) && Torn(crc, tail) && d.area == AreaBytes(segs) + tail
    && LoadHeaders(crc, d.slotA, d.slotB).Some?
    && var h := LoadHeaders(crc, d.slotA, d.slotB).value.Active();
       || h.snapOff == 0
       || AllStrong(crc, d, segs, h)
       || (h.snapOff + h.snapLen > DATA_START + |d.area| && AllWeak(crc, d, segs))
  }

  /** An open engine over the layout segs, its append point at segment c. */
  ghost predicate Inv(crc: Checksum, e: Engine, segs: seq<Segment>, c: nat)
  {
    && SlotSizes(e.disk) && AllOk(crc, segs) && e.disk.area == AreaBytes(segs)
    && e.index == Replay(segs)
    && c <= |segs| && e.nextOffset == DATA_START + Pos(segs, c) && BlobRange(segs, c, |segs|)
    && HeadersInStep(crc, e)
    && (if e.Active().snapOff == 0 then c == |segs|
        else SnapshotAtTail(e.Active(), |e.disk.area|) && AllStrong(crc, e.disk, segs, e.Active()))
  }

  /** The slots select the header the engine holds as active. */
  ghost predicate HeadersInStep(crc: Checksum, e: Engine)
  {
    var l := LoadHeaders(crc, e.disk.slotA, e.disk.slotB);
    l.Some? && l.value.activeB == e.activeB && l.value.Active() == e.Active()
  }

  // ---- Facts the steps share ----

  lemma {:induction false} DoAllSplit(d: Disk, a: seq<Step>, b: seq<Step>)
    ensures DoAll(d, a + b) == DoAll(DoAll(d, a), b)
    decreases a
  {
    if a == [] {
      assert a + b == b;
    } else {
      assert (a + b)[1..] == a[1..] + b;
      DoAllSplit(Do(d, a[0]), a[1..], b);
    }
  }

  lemma {:induction false} LoadAfterNewer(crc: Checksum, e: Engine, h: FileHeader)
    requires HeadersInStep(crc, e)
    requires h.Fits() && h.version == FORMAT_VERSION && h.commit == e.Active().commit + 1
    ensures HeadersInStep(crc, e.(disk := e.disk.WithSlot(!e.activeB, ToBytes(crc, h))).Switched(h))
  {
    HeaderRoundTrip(crc, h);
    hide FromBytes;
    hide ToBytes;
  }

  lemma {:induction false} ActiveVersion(crc: Checksum, e: Engine)
    requires HeadersInStep(crc, e)
    ensures e.Active().version == FORMAT_VERSION
    ensures ValidHeader(crc, e.disk, e.Active())
  {
  }

  // ---- How trust in a header survives changes of the layout ----

  lemma {:induction false} StrongAfterBlob(h: FileHeader, segs: seq<Segment>, s: Segment)
    requires Strong(h, segs) && s.Blob?
    ensures Strong(h, segs + [s])
  {
    if h.snapOff != 0 {
      var r: nat, b: nat :| NamedAt(h, segs, r, b);
      NamedAfterBlob(h, segs, s, r, b);
    }
  }

  lemma {:induction false} PosPrefix(segs: seq<Segment>, more: seq<Segment>, i: nat)
    requires i <= |segs|
    ensures Pos(segs + more, i) == Pos(segs, i)
  {
    assert (segs + more)[..i] == segs[..i];
  }

  lemma {:induction false} NamedAfterBlob(h: FileHeader, segs: seq<Segment>, s: Segment, r: nat, b: nat)
    requires NamedAt(h, segs, r, b) && s.Blob?
    ensures NamedAt(h, segs + [s], r, b)
  {
    PosPrefix(segs, [s], r);
    PosPrefix(segs, [s], b);
    ReplaySnoc(segs, s);
  }

  /** Cutting blobs off the end keeps every named blob that is still whole. */
  lemma {:induction false} NamedAfterCut(h: FileHeader, segs: seq<Segment>, c: nat, r: nat, b: nat)
    requires NamedAt(h, segs, r, b) && b < c <= |segs|
    ensures NamedAt(h, segs[..c], r, b)
  {
    var cut := segs[..c];
    assert cut[..r] == segs[..r] && cut[..b] == segs[..b] && cut[b] == segs[b];
    ReplayRange(segs, c, |segs|);
    assert segs[..|segs|] == segs;
  }

  lemma {:induction false} RecEndBefore(segs: seq<Segment>, c: nat)
    requires c <= |segs| && BlobRange(segs, c, |segs|)
    ensures RecEnd(segs) <= c && RecEnd(segs[..c]) == RecEnd(segs)
  {
    RecEndFacts(segs);
    if c < |segs| {
      var front := segs[..|segs| - 1];
      RecEndBefore(front, c);
      assert front[..c] == segs[..c];
    } else {
      assert segs[..c] == segs;
    }
  }

  lemma {:induction false} PosOrder(segs: seq<Segment>, i: nat, j: nat)
    requires NonEmpty(segs) && i <= |segs| && j <= |segs|
    ensures Pos(segs, i) <= Pos(segs, j) <==> i <= j
  {
    if i <= j {
      PosMonotone(segs, i, j);
    } else {
      PosMonotone(segs, j, i);
    }
  }

  /** A named blob lies behind the records that a truncation to segment c leaves. */
  lemma {:induction false} BlobBehindRecords(crc: Checksum, h: FileHeader, segs: seq<Segment>, c: nat, r: nat, b: nat)
    requires AllOk(crc, segs) && NamedAt(h, segs, r, b) && c <= |segs| && BlobRange(segs, c, |segs|)
    ensures h.snapLen > 0 && DATA_START + Pos(segs[..c], RecEnd(segs[..c])) <= h.snapOff
  {
    hide Replay;
    hide AreaBytes;
    hide RecEnd;
    OkNonEmpty(crc, segs);
    assert segs[b] in segs;
    FirstByte(crc, segs[b]);
    hide AllOk;
    RecEndBefore(segs, c);
    RecEndBefore(segs, r);
    PosOrder(segs, RecEnd(segs), b);
    assert segs[..c][..RecEnd(segs)] == segs[..RecEnd(segs)];
  }

  /** After a truncation to segment c every strong header is at least weak. */
  lemma {:induction false} WeakAfterCut(crc: Checksum, h: FileHeader, segs: seq<Segment>, c: nat)
    requires AllOk(crc, segs) && Strong(h, segs) && c <= |segs| && BlobRange(segs, c, |segs|)
    ensures Weak(h, segs[..c], Pos(segs, c))
  {
    hide Replay;
    hide AreaBytes;
    hide RecEnd;
    if h.snapOff != 0 {
      var r: nat, b: nat :| NamedAt(h, segs, r, b);
      BlobBehindRecords(crc, h, segs, c, r, b);
      OkNonEmpty(crc, segs);
      hide AllOk;
      hide BlobRange;
      if h.snapOff + h.snapLen <= DATA_START + Pos(segs, c) {
        PosStep(segs, b);
        PosOrder(segs, b + 1, c);
        NamedAfterCut(h, segs, c, r, b);
      }
    }
  }

  // ---- Header slots ----

  ghost function ActiveOf(crc: Checksum, d: Disk): Loaded
    requires LoadHeaders(crc, d.slotA, d.slotB).Some?
  {
    LoadHeaders(crc, d.slotA, d.slotB).value
  }

  /** What a header write cut anywhere may read back as: refused, still the old bytes, or already the new ones. */
  ghost predicate TornHeader(crc: Checksum, was: seq<byte>, meant: seq<byte>, torn: seq<byte>)
  {
    FromBytes(crc, torn).None? || FromBytes(crc, torn) == FromBytes(crc, was) ||
    FromBytes(crc, torn) == FromBytes(crc, meant)
  }

  lemma {:induction false} InactiveLost(crc: Checksum, d: Disk, segs: seq<Segment>, tail: seq<byte>, t: seq<byte>)
    requires DiskOk(crc, d, segs, tail) && |t| == HEADER_SIZE
    requires var other := d.Slot(!ActiveOf(crc, d).activeB);
             FromBytes(crc, t).None? || FromBytes(crc, t) == FromBytes(crc, other)
    ensures DiskOk(crc, d.WithSlot(!ActiveOf(crc, d).activeB, t), segs, tail)
  {
    hide FromBytes;
    hide AllOk;
    hide Torn;
    hide Strong;
    hide Weak;
    var d' := d.WithSlot(!ActiveOf(crc, d).activeB, t);
    assert forall h :: ValidHeader(crc, d', h) ==> ValidHeader(crc, d, h);
    assert ActiveOf(crc, d').Active() == ActiveOf(crc, d).Active();
  }

  lemma {:induction false} InactiveNull(crc: Checksum, d: Disk, segs: seq<Segment>, tail: seq<byte>, t: seq<byte>, n: FileHeader)
    requires DiskOk(crc, d, segs, tail) && |t| == HEADER_SIZE
    requires FromBytes(crc, t) == Some(n) && n.snapOff == 0 && n.commit == ActiveOf(crc, d).Active().commit + 1
    ensures DiskOk(crc, d.WithSlot(!ActiveOf(crc, d).activeB, t), segs, tail)
  {
    hide FromBytes;
    hide AllOk;
    hide Torn;
  }

  lemma {:induction false} InactiveStrong(crc: Checksum, d: Disk, segs: seq<Segment>, t: seq<byte>, n: FileHeader)
    requires DiskOk(crc, d, segs, []) && |t| == HEADER_SIZE
    requires FromBytes(crc, t) == Some(n) && n.commit == ActiveOf(crc, d).Active().commit + 1
    requires Strong(n, segs) && n.snapOff >= ActiveOf(crc, d).Active().snapOff
    requires var h := ActiveOf(crc, d).Active(); h.snapOff == 0 || AllStrong(crc, d, segs, h)
    ensures var d' := d.WithSlot(!ActiveOf(crc, d).activeB, t);
            DiskOk(crc, d', segs, []) && AllStrong(crc, d', segs, n) && ActiveOf(crc, d').Active() == n
  {
    hide FromBytes;
    hide AllOk;
    hide Torn;
    var d', h := d.WithSlot(!ActiveOf(crc, d).activeB, t), ActiveOf(crc, d).Active();
    assert Strong(h, segs) by {
      if h.snapOff != 0 {
        assert ValidHeader(crc, d, h);
      }
    }
    assert forall x :: ValidHeader(crc, d', x) ==> x == n || x == h;
  }

  // ---- Trim ----

  lemma {:induction false} EngineDiskOk(crc: Checksum, e: Engine, segs: seq<Segment>, c: nat)
    requires Inv(crc, e, segs, c)
    ensures DiskOk(crc, e.disk, segs, [])
  {
    hide FromBytes;
    hide AllOk;
    hide Strong;
    assert AreaBytes(segs) + [] == AreaBytes(segs);
  }

  /** Truncating to the append point loses no frame and leaves a disk recovery can read. */
  lemma {:induction false} TruncatedOk(crc: Checksum, e: Engine, segs: seq<Segment>, c: nat)
    requires Inv(crc, e, segs, c) && e.Active().snapOff != 0
    ensures var d := Do(e.disk, Truncate(e.nextOffset));
            d == e.disk.(area := AreaBytes(segs[..c])) && DiskOk(crc, d, segs[..c], [])
    ensures Recs(segs[..c]) == Recs(segs) && Replay(segs[..c]) == Replay(segs)
  {
    hide FromBytes;
    var d, h, cut := Do(e.disk, Truncate(e.nextOffset)), e.Active(), segs[..c];
    ActiveVersionHidden(crc, e);
    CutArea(segs, c);
    ReplayRange(segs, c, |segs|);
    assert segs[..|segs|] == segs;
    assert AreaBytes(cut) + [] == AreaBytes(cut);
    assert forall x :: ValidHeader(crc, d, x) <==> ValidHeader(crc, e.disk, x);
    if c == |segs| {
      assert cut == segs;
    } else {
      OkNonEmpty(crc, segs);
      PosMonotone(segs, c, |segs|);
      forall x | ValidHeader(crc, d, x)
        ensures Weak(x, cut, |d.area|)
      {
        WeakAfterCut(crc, x, segs, c);
      }
    }
  }

  lemma {:induction false} ActiveVersionHidden(crc: Checksum, e: Engine)
    requires HeadersInStep(crc, e)
    ensures e.Active().version == FORMAT_VERSION && ValidHeader(crc, e.disk, e.Active())
  {
    ActiveVersion(crc, e);
  }

  lemma {:induction false} CutArea(segs: seq<Segment>, c: nat)
    requires c <= |segs|
    ensures Pos(segs, c) <= |AreaBytes(segs)| && AreaBytes(segs)[..Pos(segs, c)] == AreaBytes(segs[..c])
  {
    assert segs == segs[..c] + segs[c..];
    AreaSplit(segs[..c], segs[c..]);
    assert AreaBytes(segs) == AreaBytes(segs[..c]) + AreaBytes(segs[c..]);
  }

  lemma {:induction false} TrimInv(crc: Checksum, e: Engine, segs: seq<Segment>, c: nat)
    requires Inv(crc, e, segs, c) && e.Active().snapOff != 0 && NullHeader(e.Active()).Fits()
    ensures Inv(crc, AfterTrim(crc, e), segs[..c], c)
    ensures AfterTrim(crc, e).Active().snapOff == 0
    ensures Recs(segs[..c]) == Recs(segs)
  {
    hide FromBytes;
    hide ToBytes;
    hide LoadHeaders;
    hide AreaBytes;
    hide Replay;
    hide Recs;
    hide DiskOk;
    hide DoAll;
    var n := NullHeader(e.Active());
    TruncatedOk(crc, e, segs, c);
    ActiveVersion(crc, e);
    var cut := Do(e.disk, Truncate(e.nextOffset));
    TwoSteps(e.disk, Truncate(e.nextOffset), WriteSlot(!e.activeB, ToBytes(crc, n)));
    LoadAfterNewer(crc, e.(disk := cut), n);
    assert segs[..c][..c] == segs[..c];
  }

  lemma {:induction false} TwoSteps(d: Disk, a: Step, b: Step)
    ensures DoAll(d, [a, b]) == Do(Do(d, a), b)
  {
    assert [a, b][1..] == [b];
    OneStep(Do(d, a), b);
  }

  lemma {:induction false} TrimCut(crc: Checksum, e: Engine, segs: seq<Segment>, c: nat, i: nat, k: nat) returns (left: seq<Segment>)
    requires Inv(crc, e, segs, c) && NullHeader(e.Active()).Fits()
    requires i < |TrimSteps(crc, e)|
    requires CutObeysRule(crc, e.disk, TrimSteps(crc, e), i, k)
    ensures DiskOk(crc, Crash(e.disk, TrimSteps(crc, e), i, k), left, [])
    ensures Recs(left) == Recs(segs)
  {
    hide FromBytes;
    hide ToBytes;
    hide DiskOk;
    var steps, n := TrimSteps(crc, e), NullHeader(e.Active());
    ActiveVersion(crc, e);
    if i == 0 {
      EngineDiskOk(crc, e, segs, c);
      assert steps[..0] == [];
      left := segs;
    } else {
      TruncatedOk(crc, e, segs, c);
      left := segs[..c];
      var d := Do(e.disk, Truncate(e.nextOffset));
      assert steps[..1] == [steps[0]];
      OneStep(e.disk, steps[0]);
      NullHeaderCut(crc, d, left, e.Active(), e.activeB, k);
    }
  }

  lemma {:induction false} NullHeaderCut(crc: Checksum, d: Disk, segs: seq<Segment>, h: FileHeader, activeB: bool, k: nat)
    requires DiskOk(crc, d, segs, []) && h == ActiveOf(crc, d).Active() && activeB == ActiveOf(crc, d).activeB
    requires NullHeader(h).Fits() && h.version == FORMAT_VERSION
    requires var s := WriteSlot(!activeB, ToBytes(crc, NullHeader(h)));
             TornHeader(crc, d.Slot(!activeB), s.bytes, Cut(d, s, k).Slot(!activeB))
    ensures DiskOk(crc, Cut(d, WriteSlot(!activeB, ToBytes(crc, NullHeader(h))), k), segs, [])
  {
    HeaderRoundTrip(crc, NullHeader(h));
    hide FromBytes;
    hide ToBytes;
    hide LoadHeaders;
    var s := WriteSlot(!activeB, ToBytes(crc, NullHeader(h)));
    var torn := Cut(d, s, k).Slot(!activeB);
    assert |torn| == HEADER_SIZE && Cut(d, s, k) == d.WithSlot(!activeB, torn);
    hide DiskOk;
    if FromBytes(crc, torn) == Some(NullHeader(h)) {
      InactiveNull(crc, d, segs, [], torn, NullHeader(h));
    } else {
      InactiveLost(crc, d, segs, [], torn);
    }
  }

  lemma {:induction false} OneStep(d: Disk, s: Step)
    ensures DoAll(d, [s]) == Do(d, s)
  {
    assert [s][1..] == [];
  }

  /** A crash inside a header write leaves what TornHeader allows; every other cut is unconstrained. */
  ghost predicate CutObeysRule(crc: Checksum, d: Disk, steps: seq<Step>, i: nat, k: nat)
    requires i < |steps|
  {
    var before := DoAll(d, steps[..i]);
    match steps[i]
    case WriteSlot(toB, b) => TornHeader(crc, before.Slot(toB), b, Cut(before, steps[i], k).Slot(toB))
    case _ => true
  }

  // ---- Batches ----

  function FrameSegs(crc: Checksum, fs: seq<Frame>): (segs: seq<Segment>)
    ensures |segs| == |fs|
    ensures forall i :: 0 <= i < |fs| ==> segs[i] == RecOf(crc, fs[i])
  {
    seq(|fs|, i requires 0 <= i < |fs| => RecOf(crc, fs[i]))
  }

  predicate Writable(fs: seq<Frame>)
  {
    forall f :: f in fs ==> f.Fits() && f.rtype != 0
  }

  /** Appending the first n frames extends the layout by those n segments and touches no header. */
  lemma {:induction false} AppendedArea(crc: Checksum, d: Disk, segs: seq<Segment>, fs: seq<Frame>, n: nat)
    requires d.area == AreaBytes(segs) && n <= |fs|
    ensures DoAll(d, FrameSteps(crc, fs)[..n]) == d.(area := AreaBytes(segs + FrameSegs(crc, fs)[..n]))
    decreases n
  {
    hide Encode;
    hide AreaBytes;
    var steps, more := FrameSteps(crc, fs), FrameSegs(crc, fs);
    if n == 0 {
      assert segs + more[..0] == segs;
    } else {
      hide DoAll;
      AppendedArea(crc, d, segs, fs, n - 1);
      assert steps[..n] == steps[..n - 1] + [steps[n - 1]];
      DoAllSplit(d, steps[..n - 1], [steps[n - 1]]);
      OneStep(DoAll(d, steps[..n - 1]), steps[n - 1]);
      assert segs + more[..n] == (segs + more[..n - 1]) + [more[n - 1]];
      AreaSnoc(segs + more[..n - 1], more[n - 1]);
    }
  }

  lemma {:induction false} RecsOfFrames(crc: Checksum, fs: seq<Frame>, n: nat)
    requires n <= |fs|
    ensures Recs(FrameSegs(crc, fs)[..n]) == fs[..n]
  {
    if n > 0 {
      RecsOfFrames(crc, fs, n - 1);
      var more := FrameSegs(crc, fs);
      assert more[..n] == more[..n - 1] + [more[n - 1]];
      ReplaySnoc(more[..n - 1], more[n - 1]);
      assert fs[..n] == fs[..n - 1] + [fs[n - 1]];
    }
  }

  /** Merging a batch into the index is replaying the longer layout. */
  lemma {:induction false} MergedIsReplay(crc: Checksum, segs: seq<Segment>, fs: seq<Frame>)
    ensures MergeAll(Replay(segs), fs, DATA_START + |AreaBytes(segs)|) == Replay(segs + FrameSegs(crc, fs))
    decreases fs
  {
    hide Encode;
    hide Merge;
    hide Replay;
    hide AreaBytes;
    if fs == [] {
      assert segs + FrameSegs(crc, fs) == segs;
    } else {
      var s, start := RecOf(crc, fs[0]), DATA_START + |AreaBytes(segs)|;
      assert |s.bytes| == fs[0].Size();
      assert MergeAll(Replay(segs), fs, start) == MergeAll(Merge(Replay(segs), fs[0], start), fs[1..], start + fs[0].Size());
      assert segs + FrameSegs(crc, fs) == (segs + [s]) + FrameSegs(crc, fs[1..]);
      hide MergeAll;
      hide FrameSegs;
      ReplaySnoc(segs, s);
      AreaSnoc(segs, s);
      MergedIsReplay(crc, segs + [s], fs[1..]);
    }
  }

  lemma {:induction false} AllOkAppend(crc: Checksum, segs: seq<Segment>, fs: seq<Frame>, n: nat)
    requires AllOk(crc, segs) && Writable(fs) && n <= |fs|
    ensures AllOk(crc, segs + FrameSegs(crc, fs)[..n])
  {
    hide Encode;
    var more := FrameSegs(crc, fs);
    forall s | s in segs + more[..n]
      ensures s.Ok(crc)
    {
      if s !in segs {
        var i: nat :| i < n && more[..n][i] == s;
        assert fs[i] in fs;
      }
    }
  }

  /** A trimmed engine: no snapshot named, the append point at the end of the file. */
  lemma {:induction false} TrimmedInv(crc: Checksum, e: Engine, segs: seq<Segment>, c: nat) returns (left: seq<Segment>)
    requires Inv(crc, e, segs, c) && NullHeader(e.Active()).Fits()
    ensures Inv(crc, AfterTrim(crc, e), left, |left|) && AfterTrim(crc, e).Active().snapOff == 0
    ensures Recs(left) == Recs(segs)
    ensures AfterTrim(crc, e).disk == DoAll(e.disk, TrimSteps(crc, e))
    ensures |left| <= |segs| && left == segs[..|left|] && BlobRange(segs, |left|, |segs|)
  {
    if e.Active().snapOff == 0 {
      left := segs;
      assert segs[..|segs|] == segs;
    } else {
      TrimInv(crc, e, segs, c);
      left := segs[..c];
    }
  }

  /** A completed batch adds its frames to the log and keeps the engine in step with it. */
  lemma {:induction false} BatchInv(crc: Checksum, e: Engine, segs: seq<Segment>, c: nat, fs: seq<Frame>)
    returns (segs': seq<Segment>, c': nat)
    requires Inv(crc, e, segs, c) && NullHeader(e.Active()).Fits() && Writable(fs)
    ensures Inv(crc, AfterBatch(crc, e, fs), segs', c')
    ensures Recs(segs') == Recs(segs) + fs
  {
    if fs == [] {
      return segs, c;
    }
    hide Inv;
    var left := TrimmedInv(crc, e, segs, c);
    BatchDisk(crc, e, fs);
    segs' := left + FrameSegs(crc, fs);
    c' := |segs'|;
    AppendInv(crc, AfterTrim(crc, e), left, fs);
    RecsSplit(left, FrameSegs(crc, fs));
    RecsOfFrames(crc, fs, |fs|);
    assert FrameSegs(crc, fs)[..|fs|] == FrameSegs(crc, fs) && fs[..|fs|] == fs;
  }

  lemma {:induction false} BatchDisk(crc: Checksum, e: Engine, fs: seq<Frame>)
    requires fs != [] && AfterTrim(crc, e).disk == DoAll(e.disk, TrimSteps(crc, e))
    ensures DoAll(e.disk, BatchSteps(crc, e, fs)) == DoAll(AfterTrim(crc, e).disk, FrameSteps(crc, fs))
  {
    DoAllSplit(e.disk, TrimSteps(crc, e), FrameSteps(crc, fs));
  }

  ghost function Appended(crc: Checksum, t: Engine, fs: seq<Frame>): Engine
  {
    var d := DoAll(t.disk, FrameSteps(crc, fs));
    t.(disk := d, index := MergeAll(t.index, fs, DATA_START + |t.disk.area|), nextOffset := DATA_START + |d.area|)
  }

  lemma {:induction false} AppendInv(crc: Checksum, t: Engine, segs: seq<Segment>, fs: seq<Frame>)
    requires Inv(crc, t, segs, |segs|) && t.Active().snapOff == 0 && Writable(fs)
    ensures Inv(crc, Appended(crc, t, fs), segs + FrameSegs(crc, fs), |segs + FrameSegs(crc, fs)|)
  {
    hide LoadHeaders;
    hide AllOk;
    hide MergeAll;
    hide Replay;
    hide AreaBytes;
    hide Encode;
    hide DoAll;
    var more := FrameSegs(crc, fs);
    assert more[..|fs|] == more && FrameSteps(crc, fs)[..|fs|] == FrameSteps(crc, fs);
    AppendedArea(crc, t.disk, segs, fs, |fs|);
    MergedIsReplay(crc, segs, fs);
    AllOkAppend(crc, segs, fs, |fs|);
    PosEnd(segs + more);
  }

  /** A batch cut anywhere leaves the frames before it and a whole-frame prefix of its own. */
  lemma {:induction false} BatchCut(crc: Checksum, e: Engine, segs: seq<Segment>, c: nat, fs: seq<Frame>, i: nat, k: nat)
    returns (left: seq<Segment>, tail: seq<byte>, n: nat)
    requires Inv(crc, e, segs, c) && NullHeader(e.Active()).Fits() && Writable(fs)
    requires i < |BatchSteps(crc, e, fs)|
    requires CutObeysRule(crc, e.disk, BatchSteps(crc, e, fs), i, k)
    ensures n <= |fs| && DiskOk(crc, Crash(e.disk, BatchSteps(crc, e, fs), i, k), left, tail)
    ensures Recs(left) == Recs(segs) + fs[..n]
  {
    hide DiskOk;
    hide Inv;
    var trim, steps := TrimSteps(crc, e), BatchSteps(crc, e, fs);
    if i < |trim| {
      assert steps[..i] == trim[..i];
      left := TrimCut(crc, e, segs, c, i, k);
      tail, n := [], 0;
      assert fs[..0] == [];
    } else {
      var j := i - |trim|;
      var kept := TrimmedInv(crc, e, segs, c);
      var t := AfterTrim(crc, e);
      assert steps[..i] == trim + FrameSteps(crc, fs)[..j];
      DoAllSplit(e.disk, trim, FrameSteps(crc, fs)[..j]);
      assert Crash(e.disk, steps, i, k) == Crash(t.disk, FrameSteps(crc, fs), j, k);
      left, tail, n := FrameCut(crc, t, kept, fs, j, k);
    }
  }

  /** undoAppend after frame write i stopped at k bytes: the file is cut back to where the batch began. */
  function Undone(crc: Checksum, e: Engine, fs: seq<Frame>, i: nat, k: nat): Engine
    requires i < |BatchSteps(crc, e, fs)|
  {
    var t := AfterTrim(crc, e);
    t.(disk := Do(Crash(e.disk, BatchSteps(crc, e, fs), i, k), Truncate(DATA_START + |t.disk.area|)))
  }

  /** A failed batch that is undone leaves, byte for byte, what the trim before it left, and the same log. */
  lemma {:induction false} UndoInv(crc: Checksum, e: Engine, segs: seq<Segment>, c: nat, fs: seq<Frame>, i: nat, k: nat)
    returns (left: seq<Segment>)
    requires Inv(crc, e, segs, c) && NullHeader(e.Active()).Fits() && Writable(fs)
    requires |TrimSteps(crc, e)| <= i < |BatchSteps(crc, e, fs)|
    ensures Undone(crc, e, fs, i, k) == AfterTrim(crc, e)
    ensures Inv(crc, Undone(crc, e, fs, i, k), left, |left|) && Recs(left) == Recs(segs)
  {
    hide Inv;
    hide Undone;
    left := TrimmedInv(crc, e, segs, c);
    InvArea(crc, AfterTrim(crc, e), left, |left|);
    UndoneIsTrimmed(crc, e, left, fs, i, k);
  }

  lemma {:induction false} UndoneIsTrimmed(crc: Checksum, e: Engine, left: seq<Segment>, fs: seq<Frame>, i: nat, k: nat)
    requires AfterTrim(crc, e).disk == DoAll(e.disk, TrimSteps(crc, e)) && AfterTrim(crc, e).disk.area == AreaBytes(left)
    requires |TrimSteps(crc, e)| <= i < |BatchSteps(crc, e, fs)|
    ensures Undone(crc, e, fs, i, k) == AfterTrim(crc, e)
  {
    hide AfterTrim;
    hide TrimSteps;
    hide DoAll;
    hide Encode;
    hide AreaBytes;
    var trim, plan := TrimSteps(crc, e), FrameSteps(crc, fs);
    var t, j := AfterTrim(crc, e), i - |trim|;
    assert (trim + plan)[..i] == trim + plan[..j];
    DoAllSplit(e.disk, trim, plan[..j]);
    UndoneFrames(crc, t.disk, left, fs, j, k);
  }

  lemma {:induction false} InvArea(crc: Checksum, e: Engine, segs: seq<Segment>, c: nat)
    requires Inv(crc, e, segs, c)
    ensures e.disk.area == AreaBytes(segs)
  {
  }

  lemma {:induction false} UndoneFrames(crc: Checksum, d: Disk, segs: seq<Segment>, fs: seq<Frame>, j: nat, k: nat)
    requires d.area == AreaBytes(segs) && j < |fs|
    ensures Do(Crash(d, FrameSteps(crc, fs), j, k), Truncate(DATA_START + |d.area|)) == d
  {
    AppendedArea(crc, d, segs, fs, j);
    AreaSplit(segs, FrameSegs(crc, fs)[..j]);
    hide AreaBytes;
    hide Encode;
    hide DoAll;
    var stopped := Crash(d, FrameSteps(crc, fs), j, k);
    assert stopped.area[..|d.area|] == d.area;
  }

  lemma {:induction false} FrameCut(crc: Checksum, t: Engine, segs: seq<Segment>, fs: seq<Frame>, j: nat, k: nat)
    returns (left: seq<Segment>, tail: seq<byte>, n: nat)
    requires Inv(crc, t, segs, |segs|) && t.Active().snapOff == 0 && Writable(fs) && j < |fs|
    ensures n <= |fs| && DiskOk(crc, Crash(t.disk, FrameSteps(crc, fs), j, k), left, tail)
    ensures Recs(left) == Recs(segs) + fs[..n]
  {
    hide LoadHeaders;
    hide Encode;
    hide AreaBytes;
    hide Replay;
    hide Recs;
    hide DoAll;
    var more, whole := FrameSegs(crc, fs), Encode(crc, fs[j]);
    AppendedArea(crc, t.disk, segs, fs, j);
    var done := segs + more[..j];
    if k == |whole| {
      n, tail := j + 1, [];
      left := segs + more[..n];
      assert left == done + [more[j]];
      AreaSnoc(done, more[j]);
      assert whole[..k] == whole && AreaBytes(left) + [] == AreaBytes(left);
    } else {
      n := j;
      left := done;
      tail := if k < |whole| then whole[..k] else [];
      assert fs[j] in fs;
      assert more[j].Ok(crc) && more[j].bytes == whole;
      assert Torn(crc, tail);
      assert AreaBytes(left) + [] == AreaBytes(left);
    }
    AllOkAppend(crc, segs, fs, n);
    RecsSplit(segs, more[..n]);
    RecsOfFrames(crc, fs, n);
    assert AllOk(crc, left);
    hide AllOk;
    assert Crash(t.disk, FrameSteps(crc, fs), j, k) == t.disk.(area := AreaBytes(left) + tail);
  }

  // ---- Checkpoint ----

  lemma {:induction false} MergeNoEmpty(idx: Index, f: Frame, offset: nat)
    requires NoEmptyDomain(idx)
    ensures NoEmptyDomain(Merge(idx, f, offset))
  {
    if !f.Deleted() {
      assert f.id in Merge(idx, f, offset)[f.agent];
    }
  }

  lemma {:induction false} ReplayNoEmpty(segs: seq<Segment>)
    ensures NoEmptyDomain(Replay(segs))
  {
    if segs != [] {
      var front := segs[..|segs| - 1];
      ReplayNoEmpty(front);
      match segs[|segs| - 1]
      case Rec(f, _) => MergeNoEmpty(Replay(front), f, DATA_START + |AreaBytes(front)|);
      case Blob(_, _) =>
    }
  }

  lemma {:induction false} InvHeaders(crc: Checksum, e: Engine, segs: seq<Segment>, c: nat)
    requires Inv(crc, e, segs, c)
    ensures HeadersInStep(crc, e) && e.Active().version == FORMAT_VERSION
    ensures e.Active().snapOff <= DATA_START + |e.disk.area|
  {
    ActiveVersion(crc, e);
  }

  lemma {:induction false} BlobAppended(crc: Checksum, e: Engine, segs: seq<Segment>, c: nat, secs: seq<Section>)
    requires Inv(crc, e, segs, c) && Lists(secs, e.index) && SectionsFit(secs)
    ensures var s := Blob(secs, BlobBytes(crc, secs));
            var d, h := e.disk.(area := e.disk.area + s.bytes), e.Active();
            && DiskOk(crc, d, segs + [s], [])
            && (h.snapOff == 0 || AllStrong(crc, d, segs + [s], h))
            && NamedAt(CheckpointHeader(e, |s.bytes|), segs + [s], c, |segs|)
            && Recs(segs + [s]) == Recs(segs) && Replay(segs + [s]) == Replay(segs)
  {
    var s := Blob(secs, BlobBytes(crc, secs));
    var next, d, h := segs + [s], e.disk.(area := e.disk.area + s.bytes), e.Active();
    hide BlobBytes;
    hide FromBytes;
    CheckpointNamed(crc, e, segs, c, secs);
    hide NamedAt;
    hide Replay;
    hide Recs;
    hide AreaBytes;
    ReplaySnoc(segs, s);
    AreaSnoc(segs, s);
    assert AreaBytes(next) + [] == AreaBytes(next);
    if h.snapOff != 0 {
      AllStrongAfterBlob(crc, e.disk, d, segs, s, h);
    }
  }

  lemma {:induction false} CheckpointNamed(crc: Checksum, e: Engine, segs: seq<Segment>, c: nat, secs: seq<Section>)
    requires Inv(crc, e, segs, c) && Lists(secs, e.index) && SectionsFit(secs)
    ensures var s := Blob(secs, BlobBytes(crc, secs));
            NamedAt(CheckpointHeader(e, |s.bytes|), segs + [s], c, |segs|)
  {
    ReplayNoEmpty(segs);
    ParseUndoesBuild(crc, e.index, secs);
    ParseBlob(crc, secs);
    hide Parse;
    hide Replay;
    hide AreaBytes;
    hide BlobBytes;
    hide SectionsIndex;
    BlobNamed(CheckpointHeader(e, |BlobBytes(crc, secs)|), segs, c, Blob(secs, BlobBytes(crc, secs)));
  }

  lemma {:induction false} BlobNamed(h: FileHeader, segs: seq<Segment>, c: nat, s: Segment)
    requires s.Blob? && c <= |segs| && BlobRange(segs, c, |segs|) && SectionsIndex(s.secs) == Replay(segs)
    requires h.recordEnd == DATA_START + Pos(segs, c) && h.snapLen == |s.bytes|
    requires h.snapOff == DATA_START + |AreaBytes(segs)|
    ensures NamedAt(h, segs + [s], c, |segs|)
  {
    hide Replay;
    hide SectionsIndex;
    hide AreaBytes;
    ReplaySnoc(segs, s);
    PosPrefix(segs, [s], c);
    PosPrefix(segs, [s], |segs|);
    PosEnd(segs);
  }

  lemma {:induction false} AllStrongAfterBlob(crc: Checksum, d: Disk, d': Disk, segs: seq<Segment>, s: Segment, h: FileHeader)
    requires AllStrong(crc, d, segs, h) && s.Blob? && d'.slotA == d.slotA && d'.slotB == d.slotB
    ensures AllStrong(crc, d', segs + [s], h)
  {
    hide FromBytes;
    hide Strong;
    forall x | ValidHeader(crc, d', x)
      ensures Strong(x, segs + [s]) && (x.snapOff == 0 || x.snapOff <= h.snapOff)
    {
      assert ValidHeader(crc, d, x);
      StrongAfterBlob(x, segs, s);
    }
  }

  lemma {:induction false} SealedHeaders(crc: Checksum, e: Engine, segs: seq<Segment>, blob: seq<byte>)
    requires HeadersInStep(crc, e) && e.Active().version == FORMAT_VERSION
    requires CheckpointHeader(e, |blob|).Fits() && e.Active().snapOff <= CheckpointHeader(e, |blob|).snapOff
    requires Strong(CheckpointHeader(e, |blob|), segs)
    requires var d, h := e.disk.(area := e.disk.area + blob), e.Active();
             DiskOk(crc, d, segs, []) && (h.snapOff == 0 || AllStrong(crc, d, segs, h))
    ensures var e' := AfterCheckpoint(crc, e, blob);
            && HeadersInStep(crc, e') && e'.disk.area == e.disk.area + blob && SlotSizes(e'.disk)
            && AllStrong(crc, e'.disk, segs, e'.Active())
  {
    var n, d := CheckpointHeader(e, |blob|), e.disk.(area := e.disk.area + blob);
    HeaderRoundTrip(crc, n);
    hide FromBytes;
    hide ToBytes;
    hide Strong;
    TwoSteps(e.disk, Append(blob), WriteSlot(!e.activeB, ToBytes(crc, n)));
    LoadAfterNewer(crc, e.(disk := d), n);
    hide AllStrong;
    InactiveStrong(crc, d, segs, ToBytes(crc, n), n);
    hide LoadHeaders;
  }

  lemma {:induction false} CheckpointInv(crc: Checksum, e: Engine, segs: seq<Segment>, c: nat, secs: seq<Section>)
    requires Inv(crc, e, segs, c) && Lists(secs, e.index) && SectionsFit(secs)
    requires CheckpointHeader(e, |BlobBytes(crc, secs)|).Fits()
    ensures var s := Blob(secs, BlobBytes(crc, secs));
            Inv(crc, AfterCheckpoint(crc, e, s.bytes), segs + [s], c) && Recs(segs + [s]) == Recs(segs)
  {
    var s := Blob(secs, BlobBytes(crc, secs));
    hide BlobBytes;
    hide Replay;
    hide Recs;
    hide AreaBytes;
    InvHeaders(crc, e, segs, c);
    BlobAppended(crc, e, segs, c, secs);
    assert Strong(CheckpointHeader(e, |s.bytes|), segs + [s]);
    hide NamedAt;
    hide Strong;
    SealedHeaders(crc, e, segs + [s], s.bytes);
    hide HeadersInStep;
    hide DoAll;
    hide AllStrong;
    PosPrefix(segs, [s], c);
    AreaSnoc(segs, s);
    hide AllOk;
  }

  lemma {:induction false} CheckpointCut(crc: Checksum, e: Engine, segs: seq<Segment>, c: nat, secs: seq<Section>, i: nat, k: nat)
    returns (left: seq<Segment>, tail: seq<byte>)
    requires Inv(crc, e, segs, c) && Lists(secs, e.index) && SectionsFit(secs)
    requires CheckpointHeader(e, |BlobBytes(crc, secs)|).Fits() && i < 2
    requires CutObeysRule(crc, e.disk, CheckpointSteps(crc, e, BlobBytes(crc, secs)), i, k)
    ensures DiskOk(crc, Crash(e.disk, CheckpointSteps(crc, e, BlobBytes(crc, secs)), i, k), left, tail)
    ensures Recs(left) == Recs(segs)
  {
    hide BlobBytes;
    hide DiskOk;
    hide Inv;
    hide CutObeysRule;
    hide CheckpointSteps;
    if i == 0 {
      left, tail := BlobCut(crc, e, segs, c, secs, k);
    } else {
      left, tail := segs + [Blob(secs, BlobBytes(crc, secs))], [];
      SealCut(crc, e, segs, c, secs, k);
    }
  }

  lemma {:induction false} BlobCut(crc: Checksum, e: Engine, segs: seq<Segment>, c: nat, secs: seq<Section>, k: nat)
    returns (left: seq<Segment>, tail: seq<byte>)
    requires Inv(crc, e, segs, c) && Lists(secs, e.index) && SectionsFit(secs)
    ensures DiskOk(crc, Crash(e.disk, CheckpointSteps(crc, e, BlobBytes(crc, secs)), 0, k), left, tail)
    ensures Recs(left) == Recs(segs)
  {
    hide BlobBytes;
    hide DiskOk;
    hide Inv;
    hide NamedAt;
    hide AllStrong;
    hide ToBytes;
    var blob := BlobBytes(crc, secs);
    var s, steps := Blob(secs, blob), CheckpointSteps(crc, e, blob);
    assert steps[..0] == [];
    if k == |blob| {
      BlobAppended(crc, e, segs, c, secs);
      assert blob[..k] == blob;
      left, tail := segs + [s], [];
    } else {
      left, tail := segs, if k < |blob| then blob[..k] else [];
      PartialBlob(crc, e, segs, c, s, tail);
      assert e.disk.area + [] == e.disk.area;
    }
  }

  lemma {:induction false} SealCut(crc: Checksum, e: Engine, segs: seq<Segment>, c: nat, secs: seq<Section>, k: nat)
    requires Inv(crc, e, segs, c) && Lists(secs, e.index) && SectionsFit(secs)
    requires CheckpointHeader(e, |BlobBytes(crc, secs)|).Fits()
    requires CutObeysRule(crc, e.disk, CheckpointSteps(crc, e, BlobBytes(crc, secs)), 1, k)
    ensures var s := Blob(secs, BlobBytes(crc, secs));
            DiskOk(crc, Crash(e.disk, CheckpointSteps(crc, e, s.bytes), 1, k), segs + [s], []) &&
            Recs(segs + [s]) == Recs(segs)
  {
    hide BlobBytes;
    hide DiskOk;
    var blob := BlobBytes(crc, secs);
    var s, steps := Blob(secs, blob), CheckpointSteps(crc, e, blob);
    InvHeaders(crc, e, segs, c);
    hide Inv;
    hide AllStrong;
    hide ToBytes;
    hide HeadersInStep;
    BlobAppended(crc, e, segs, c, secs);
    assert Strong(CheckpointHeader(e, |blob|), segs + [s]);
    hide NamedAt;
    hide Strong;
    assert steps[..1] == [steps[0]];
    OneStep(e.disk, steps[0]);
    CheckpointHeaderCut(crc, e, segs + [s], blob, k);
  }

  lemma {:induction false} PartialBlob(crc: Checksum, e: Engine, segs: seq<Segment>, c: nat, s: Segment, tail: seq<byte>)
    requires Inv(crc, e, segs, c) && s.Ok(crc) && |tail| < |s.bytes| && tail == s.bytes[..|tail|]
    ensures DiskOk(crc, e.disk.(area := e.disk.area + tail), segs, tail)
  {
    hide BlobBytes;
    hide Encode;
    hide FromBytes;
    hide Strong;
    var d := e.disk.(area := e.disk.area + tail);
    assert forall x :: ValidHeader(crc, d, x) <==> ValidHeader(crc, e.disk, x);
  }

  lemma {:induction false} CheckpointHeaderCut(crc: Checksum, e: Engine, segs: seq<Segment>, blob: seq<byte>, k: nat)
    requires HeadersInStep(crc, e) && e.Active().version == FORMAT_VERSION
    requires CheckpointHeader(e, |blob|).Fits() && e.Active().snapOff <= CheckpointHeader(e, |blob|).snapOff
    requires Strong(CheckpointHeader(e, |blob|), segs)
    requires var d, h := e.disk.(area := e.disk.area + blob), e.Active();
             DiskOk(crc, d, segs, []) && (h.snapOff == 0 || AllStrong(crc, d, segs, h))
    requires var d := e.disk.(area := e.disk.area + blob);
             var s := WriteSlot(!e.activeB, ToBytes(crc, CheckpointHeader(e, |blob|)));
             TornHeader(crc, d.Slot(!e.activeB), s.bytes, Cut(d, s, k).Slot(!e.activeB))
    ensures DiskOk(crc, Cut(e.disk.(area := e.disk.area + blob),
                            WriteSlot(!e.activeB, ToBytes(crc, CheckpointHeader(e, |blob|))), k), segs, [])
  {
    var d, n := e.disk.(area := e.disk.area + blob), CheckpointHeader(e, |blob|);
    HeaderRoundTrip(crc, n);
    hide FromBytes;
    hide ToBytes;
    hide LoadHeaders;
    hide Strong;
    var s := WriteSlot(!e.activeB, ToBytes(crc, n));
    var torn := Cut(d, s, k).Slot(!e.activeB);
    assert |torn| == HEADER_SIZE && Cut(d, s, k) == d.WithSlot(!e.activeB, torn);
    if FromBytes(crc, torn) == Some(n) {
      InactiveStrong(crc, d, segs, torn, n);
    } else {
      InactiveLost(crc, d, segs, [], torn);
    }
  }
}
