// What every run of the storage engine keeps, crashes included.
module CrashSafety {
  import opened Common
  import opened Bytes
  import opened Frames
  import opened Snapshots
  import opened Headers
  import opened Recovery
  import opened Durability
  import opened Reopen

  // ---- The engine as a plain map ----

  datatype Value = Value(rtype: byte, data: seq<byte>)

  type Records = map<(uint64, uint64), Value>

  /** The abstract content of a log: the last write of each (agent, id), unless a tombstone followed. */
  function View(log: seq<Frame>): Records
  {
    if log == [] then map[]
    else
      ViewStep(View(log[..|log| - 1]), log[|log| - 1])
  }

  /** ReadRecord: the frame the index points at; None is ErrNotFound. */
  function ReadRecord(crc: Checksum, e: Engine, agent: uint64, id: uint64): Option<Decoded>
  {
    if Holds(e.index, agent, id) && e.index[agent][id] >= DATA_START
    then Some(RecordData(crc, e.disk.area, e.index[agent][id] - DATA_START)) else None
  }

  ghost predicate PointsAt(crc: Checksum, area: seq<byte>, idx: Index, view: Records, agent: uint64, id: uint64)
    requires Holds(idx, agent, id) && (agent, id) in view
  {
    var off := idx[agent][id];
    off >= DATA_START && RecordData(crc, area, off - DATA_START) ==
      Ok(Frame(agent, view[(agent, id)].rtype, FlagsAt(area, off), id, view[(agent, id)].data))
  }

  ghost function FlagsAt(area: seq<byte>, off: nat): byte
  {
    if DATA_START <= off && off - DATA_START + 1 < |area| then area[off - DATA_START + 1] else 0
  }

  /** The index and the map have the same keys, and every offset reads back the map's value. */
  ghost predicate Agrees(crc: Checksum, area: seq<byte>, idx: Index, view: Records)
  {
    && (forall agent: uint64, id: uint64 :: Holds(idx, agent, id) <==> (agent, id) in view)
    && (forall agent: uint64, id: uint64 :: Holds(idx, agent, id) && (agent, id) in view ==> PointsAt(crc, area, idx, view, agent, id))
  }

  /** Who the index holds after one frame, and at which offset. */
  lemma {:induction false} MergeLookup(idx: Index, f: Frame, offset: nat, agent: uint64, id: uint64)
    ensures var idx' := Merge(idx, f, offset);
            if (agent, id) == (f.agent, f.id)
            then Holds(idx', agent, id) == !f.Deleted() && (Holds(idx', agent, id) ==> idx'[agent][id] == offset)
            else Holds(idx', agent, id) == Holds(idx, agent, id) &&
                 (Holds(idx', agent, id) ==> idx'[agent][id] == idx[agent][id])
  {
  }

  function ViewStep(view: Records, f: Frame): Records
  {
    if f.Deleted() then view - {(f.agent, f.id)} else view[(f.agent, f.id) := Value(f.rtype, f.data)]
  }

  lemma {:induction false} PointsStep(crc: Checksum, area: seq<byte>, idx: Index, view: Records, f: Frame, pos: nat,
                                      agent: uint64, id: uint64)
    requires Holds(idx, agent, id) <==> (agent, id) in view
    requires Holds(idx, agent, id) ==> PointsAt(crc, area, idx, view, agent, id)
    requires RecordData(crc, area, pos) == Ok(f)
    ensures var idx', view' := Merge(idx, f, DATA_START + pos), ViewStep(view, f);
            && (Holds(idx', agent, id) <==> (agent, id) in view')
            && (Holds(idx', agent, id) ==> PointsAt(crc, area, idx', view', agent, id))
  {
    FlagsRead(crc, area, f, pos);
    hide RecordData;
    hide FlagsAt;
    hide Merge;
    MergeLookup(idx, f, DATA_START + pos, agent, id);
  }

  lemma {:induction false} FlagsRead(crc: Checksum, area: seq<byte>, f: Frame, pos: nat)
    requires RecordData(crc, area, pos) == Ok(f)
    ensures FlagsAt(area, DATA_START + pos) == f.flags
  {
    hide FromLE;
  }

  lemma {:induction false} AgreesStep(crc: Checksum, area: seq<byte>, idx: Index, view: Records, f: Frame, pos: nat)
    requires Agrees(crc, area, idx, view)
    requires RecordData(crc, area, pos) == Ok(f)
    ensures Agrees(crc, area, Merge(idx, f, DATA_START + pos), ViewStep(view, f))
  {
    hide RecordData;
    hide PointsAt;
    hide Merge;
    hide ViewStep;
    var idx', view' := Merge(idx, f, DATA_START + pos), ViewStep(view, f);
    forall agent: uint64, id: uint64
      ensures Holds(idx', agent, id) <==> (agent, id) in view'
      ensures Holds(idx', agent, id) && (agent, id) in view' ==> PointsAt(crc, area, idx', view', agent, id)
    {
      PointsStep(crc, area, idx, view, f, pos, agent, id);
    }
  }

  lemma {:induction false} FrameReads(crc: Checksum, segs: seq<Segment>, tail: seq<byte>, i: nat)
    requires AllOk(crc, segs) && i < |segs| && segs[i].Rec?
    ensures RecordData(crc, AreaBytes(segs) + tail, Pos(segs, i)) == Ok(segs[i].frame)
  {
    hide RecordData;
    hide Encode;
    assert segs[i] in segs;
    SegmentAt(segs, tail, i);
    DecodeEncoded(crc, AreaBytes(segs) + tail, Pos(segs, i), segs[i].frame);
  }

  lemma {:induction false} NothingAgrees(crc: Checksum, area: seq<byte>)
    ensures Agrees(crc, area, Replay([]), View(Recs([])))
  {
  }

  /** Replaying a layout gives an index whose reads are the plain map of its frames. */
  lemma {:induction false} ReplayAgrees(crc: Checksum, segs: seq<Segment>, tail: seq<byte>, n: nat)
    requires AllOk(crc, segs) && n <= |segs|
    ensures Agrees(crc, AreaBytes(segs) + tail, Replay(segs[..n]), View(Recs(segs[..n])))
  {
    hide AllOk;
    hide RecordData;
    hide Agrees;
    hide Replay;
    hide View;
    hide ViewStep;
    hide Recs;
    hide AreaBytes;
    if n == 0 {
      assert segs[..0] == [];
      NothingAgrees(crc, AreaBytes(segs) + tail);
    } else {
      ReplayAgrees(crc, segs, tail, n - 1);
      var front, s := segs[..n - 1], segs[n - 1];
      assert segs[..n] == front + [s];
      ReplaySnoc(front, s);
      if s.Rec? {
        FrameReads(crc, segs, tail, n - 1);
        ViewSnoc(Recs(front), s.frame);
        AgreesStep(crc, AreaBytes(segs) + tail, Replay(front), View(Recs(front)), s.frame, Pos(segs, n - 1));
      }
    }
  }

  lemma {:induction false} ViewSnoc(log: seq<Frame>, f: Frame)
    ensures View(log + [f]) == ViewStep(View(log), f)
  {
    assert (log + [f])[..|log|] == log;
  }

  /** Reads of an engine in step with a log answer as the plain map of that log does. */
  lemma {:induction false} ReadsAnswerAsMap(crc: Checksum, e: Engine, segs: seq<Segment>, c: nat, agent: uint64, id: uint64)
    requires Inv(crc, e, segs, c)
    ensures var view := View(Recs(segs));
            && (ReadRecord(crc, e, agent, id).None? <==> (agent, id) !in view)
            && ((agent, id) in view ==>
                  ReadRecord(crc, e, agent, id).value.Ok? &&
                  var f := ReadRecord(crc, e, agent, id).value.frame;
                  f.agent == agent && f.id == id && Value(f.rtype, f.data) == view[(agent, id)])
  {
    ReplayAgrees(crc, segs, [], |segs|);
    assert segs[..|segs|] == segs && AreaBytes(segs) + [] == AreaBytes(segs);
    hide RecordData;
    hide Replay;
    hide View;
    hide Recs;
  }

  // ---- Interrupted opens ----

  lemma {:induction false} WeakAfterScanCut(h: FileHeader, segs: seq<Segment>, size: nat)
    requires Weak(h, segs, size)
    ensures var k := RecEnd(segs); Weak(h, segs[..k], Pos(segs, k))
  {
    RecEndFacts(segs);
    RecEndBefore(segs, RecEnd(segs));
    assert segs[..RecEnd(segs)][..RecEnd(segs)] == segs[..RecEnd(segs)];
  }

  /**
   * clearActiveSnapshot rewrites the active header in place. Cut short, it costs that header: the file still
   * opens, on the other one, exactly when the other slot reads back.
   */
  lemma {:induction false} ActiveSlotCut(crc: Checksum, d: Disk, segs: seq<Segment>, l: Loaded, t: seq<byte>)
    requires DiskOk(crc, d, segs, []) && LoadHeaders(crc, d.slotA, d.slotB) == Some(l) && |t| == HEADER_SIZE
    requires l.Active().snapOff + l.Active().snapLen > DATA_START + |d.area| && AllWeak(crc, d, segs)
    requires FromBytes(crc, t).None? || FromBytes(crc, t) == Some(l.Active()) || FromBytes(crc, t) == Some(Cleared(l.Active()))
    ensures var d' := d.WithSlot(l.activeB, t);
            if FromBytes(crc, t).None? && FromBytes(crc, d.Slot(!l.activeB)).None?
            then LoadHeaders(crc, d'.slotA, d'.slotB).None?
            else DiskOk(crc, d', segs, [])
  {
    var d' := d.WithSlot(l.activeB, t);
    LoadedFits(crc, d, l);
    hide AllOk;
    hide Torn;
    if FromBytes(crc, t) == Some(Cleared(l.Active())) {
      LoadAfterClear(crc, d, l, t);
      hide FromBytes;
    } else {
      hide FromBytes;
      hide Weak;
      assert forall x :: ValidHeader(crc, d', x) ==> ValidHeader(crc, d, x);
      if FromBytes(crc, t).None? && FromBytes(crc, d.Slot(!l.activeB)).Some? {
        FallbackOk(crc, d', segs, FromBytes(crc, d.Slot(!l.activeB)).value);
      }
    }
  }

  lemma {:induction false} FallbackOk(crc: Checksum, d: Disk, segs: seq<Segment>, y: FileHeader)
    requires LoadHeaders(crc, d.slotA, d.slotB).Some? && ActiveOf(crc, d).Active() == y
    requires forall x :: ValidHeader(crc, d, x) ==> x == y
    requires Weak(y, segs, |d.area|)
    ensures y.snapOff == 0 || AllStrong(crc, d, segs, y) ||
            (y.snapOff + y.snapLen > DATA_START + |d.area| && AllWeak(crc, d, segs))
  {
    hide FromBytes;
  }

  /** An Open stopped anywhere leaves the same frames, unless its header write took the last readable header. */
  lemma {:induction false} OpenCut(crc: Checksum, d: Disk, segs: seq<Segment>, tail: seq<byte>, i: nat, k: nat)
    returns (left: seq<Segment>, rest: seq<byte>)
    requires DiskOk(crc, d, segs, tail) && Silent(crc, d.area, segs)
    requires Open(crc, d).Some? && i < |Open(crc, d).value.steps|
    requires CutObeysRule(crc, d, Open(crc, d).value.steps, i, k)
    ensures var d' := Crash(d, Open(crc, d).value.steps, i, k);
            if LoadHeaders(crc, d'.slotA, d'.slotB).None?
            then FromBytes(crc, d.Slot(!ActiveOf(crc, d).activeB)).None?
            else DiskOk(crc, d', left, rest) && Recs(left) == Recs(segs)
  {
    hide Open;
    hide CutObeysRule;
    var l := ActiveOf(crc, d);
    var h, steps := l.Active(), Open(crc, d).value.steps;
    LoadedFits(crc, d, l);
    if steps[i].Truncate? {
      assert i == 0 by { TruncateFirst(crc, d, segs, tail, i); }
      assert steps[..0] == [];
      left, rest := segs, tail;
    } else {
      ClearIsLast(crc, d, segs, tail, i);
      left, rest := segs[..RecEnd(segs)], [];
      ClearCut(crc, d, segs, tail, l, i, k);
    }
  }

  lemma {:induction false} OpenSteps(crc: Checksum, d: Disk, segs: seq<Segment>, tail: seq<byte>)
    requires DiskOk(crc, d, segs, tail) && Silent(crc, d.area, segs)
    ensures Open(crc, d).Some?
    ensures var l, steps, k := ActiveOf(crc, d), Open(crc, d).value.steps, RecEnd(segs);
            var h := l.Active();
            || (|steps| <= 1 && forall s :: s in steps ==> s.Truncate?)
            || (steps == CutSteps(segs, tail, k) + [WriteSlot(l.activeB, ToBytes(crc, Cleared(h)))] && h.snapOff != 0 &&
                h.snapOff + h.snapLen > DATA_START + |d.area| && AllWeak(crc, d, segs))
  {
    hide Open;
    hide FromBytes;
    hide ToBytes;
    hide RecEnd;
    var l := ActiveOf(crc, d);
    var h := l.Active();
    LoadedFits(crc, d, l);
    if h.snapOff != 0 && AllStrong(crc, d, segs, h) {
      var r: nat, b: nat :| NamedAt(h, segs, r, b);
      OpenBySnapshot(crc, d, segs, tail, l, r, b);
    } else {
      OpenByScan(crc, d, segs, tail, l);
      assert CutSteps(segs, tail, RecEnd(segs)) + [] == CutSteps(segs, tail, RecEnd(segs));
    }
  }

  lemma {:induction false} TruncateFirst(crc: Checksum, d: Disk, segs: seq<Segment>, tail: seq<byte>, i: nat)
    requires DiskOk(crc, d, segs, tail) && Silent(crc, d.area, segs)
    requires Open(crc, d).Some? && i < |Open(crc, d).value.steps| && Open(crc, d).value.steps[i].Truncate?
    ensures i == 0
  {
    OpenSteps(crc, d, segs, tail);
    hide Open;
    hide DiskOk;
  }

  lemma {:induction false} ClearIsLast(crc: Checksum, d: Disk, segs: seq<Segment>, tail: seq<byte>, i: nat)
    requires DiskOk(crc, d, segs, tail) && Silent(crc, d.area, segs)
    requires Open(crc, d).Some? && i < |Open(crc, d).value.steps| && !Open(crc, d).value.steps[i].Truncate?
    ensures var l, steps := ActiveOf(crc, d), Open(crc, d).value.steps;
            var h := l.Active();
            && steps == CutSteps(segs, tail, RecEnd(segs)) + [WriteSlot(l.activeB, ToBytes(crc, Cleared(h)))]
            && i == |CutSteps(segs, tail, RecEnd(segs))| && h.snapOff != 0
            && h.snapOff + h.snapLen > DATA_START + |d.area| && AllWeak(crc, d, segs)
  {
    OpenSteps(crc, d, segs, tail);
    hide Open;
    hide DiskOk;
    hide AllWeak;
  }

  lemma {:induction false} ClearCut(crc: Checksum, d: Disk, segs: seq<Segment>, tail: seq<byte>, l: Loaded, i: nat, k: nat)
    requires DiskOk(crc, d, segs, tail) && LoadHeaders(crc, d.slotA, d.slotB) == Some(l)
    requires l.Active().snapOff != 0 && l.Active().snapOff + l.Active().snapLen > DATA_START + |d.area| && AllWeak(crc, d, segs)
    requires i == |CutSteps(segs, tail, RecEnd(segs))|
    requires var steps := CutSteps(segs, tail, RecEnd(segs)) + [WriteSlot(l.activeB, ToBytes(crc, Cleared(l.Active())))];
             CutObeysRule(crc, d, steps, i, k)
    ensures var steps := CutSteps(segs, tail, RecEnd(segs)) + [WriteSlot(l.activeB, ToBytes(crc, Cleared(l.Active())))];
            var d', left := Crash(d, steps, i, k), segs[..RecEnd(segs)];
            && Recs(left) == Recs(segs)
            && (if LoadHeaders(crc, d'.slotA, d'.slotB).None? then FromBytes(crc, d.Slot(!l.activeB)).None?
                else DiskOk(crc, d', left, []))
  {
    hide DoAll;
    hide Replay;
    hide Recs;
    hide AreaBytes;
    hide Pos;
    hide FromBytes;
    hide ToBytes;
    var n := RecEnd(segs);
    var cutSteps, clear := CutSteps(segs, tail, n), WriteSlot(l.activeB, ToBytes(crc, Cleared(l.Active())));
    var cut := d.(area := AreaBytes(segs[..n]));
    assert (cutSteps + [clear])[..i] == cutSteps;
    CutDisk(d, segs, tail, n);
    RecEndFacts(segs);
    ReplayRange(segs, n, |segs|);
    assert segs[..|segs|] == segs;
    ScanCutOk(crc, d, segs, tail, l);
    hide LoadHeaders;
    hide DiskOk;
    hide AllWeak;
    hide RecEnd;
    ClearHeaderCut(crc, cut, segs[..n], l, k);
  }

  /** The header part of an interrupted clear, on the area already cut. */
  lemma {:induction false} ClearHeaderCut(crc: Checksum, cut: Disk, left: seq<Segment>, l: Loaded, k: nat)
    requires DiskOk(crc, cut, left, []) && LoadHeaders(crc, cut.slotA, cut.slotB) == Some(l)
    requires l.Active().snapOff + l.Active().snapLen > DATA_START + |cut.area| && AllWeak(crc, cut, left)
    requires var clear := WriteSlot(l.activeB, ToBytes(crc, Cleared(l.Active())));
             TornHeader(crc, cut.Slot(l.activeB), clear.bytes, Cut(cut, clear, k).Slot(l.activeB))
    ensures var d' := Cut(cut, WriteSlot(l.activeB, ToBytes(crc, Cleared(l.Active()))), k);
            if LoadHeaders(crc, d'.slotA, d'.slotB).None? then FromBytes(crc, cut.Slot(!l.activeB)).None? else DiskOk(crc, d', left, [])
  {
    var clear := WriteSlot(l.activeB, ToBytes(crc, Cleared(l.Active())));
    LoadedFits(crc, cut, l);
    HeaderRoundTrip(crc, Cleared(l.Active()));
    assert SlotSizes(cut);
    hide FromBytes;
    hide ToBytes;
    hide LoadHeaders;
    hide DiskOk;
    hide AllWeak;
    var torn := Cut(cut, clear, k).Slot(l.activeB);
    assert |torn| == HEADER_SIZE && Cut(cut, clear, k) == cut.WithSlot(l.activeB, torn);
    ActiveSlotCut(crc, cut, left, l, torn);
  }

  lemma {:induction false} ScanCutOk(crc: Checksum, d: Disk, segs: seq<Segment>, tail: seq<byte>, l: Loaded)
    requires DiskOk(crc, d, segs, tail) && LoadHeaders(crc, d.slotA, d.slotB) == Some(l)
    requires l.Active().snapOff + l.Active().snapLen > DATA_START + |d.area| && AllWeak(crc, d, segs)
    ensures var n := RecEnd(segs);
            var cut := d.(area := AreaBytes(segs[..n]));
            DiskOk(crc, cut, segs[..n], []) && AllWeak(crc, cut, segs[..n]) && |cut.area| <= |d.area|
  {
    hide FromBytes;
    var n := RecEnd(segs);
    var cut := d.(area := AreaBytes(segs[..n]));
    CutArea(segs, n);
    PrefixOk(crc, segs, n);
    assert AreaBytes(segs[..n]) + [] == AreaBytes(segs[..n]);
    forall x | ValidHeader(crc, cut, x)
      ensures Weak(x, segs[..n], |cut.area|)
    {
      assert ValidHeader(crc, d, x);
      WeakAfterScanCut(x, segs, |d.area|);
    }
    hide AllOk;
    hide Weak;
    hide Strong;
    hide RecEnd;
  }

  /** Reading only what is there before: the other slot is refused, and so is what the cut leaves of the active one. */
  ghost predicate TakesLastHeader(crc: Checksum, d: Disk, step: Step, k: nat)
    requires LoadHeaders(crc, d.slotA, d.slotB).Some?
  {
    step.WriteSlot? && FromBytes(crc, d.Slot(!ActiveOf(crc, d).activeB)).None? &&
    FromBytes(crc, Cut(d, step, k).Slot(ActiveOf(crc, d).activeB)).None?
  }

  /** An interrupted Open costs the file exactly when its header write takes the last readable header. */
  lemma {:induction false} OpenCutExactly(crc: Checksum, d: Disk, segs: seq<Segment>, tail: seq<byte>, i: nat, k: nat)
    requires DiskOk(crc, d, segs, tail) && Silent(crc, d.area, segs)
    requires Open(crc, d).Some? && i < |Open(crc, d).value.steps|
    ensures var steps := Open(crc, d).value.steps;
            var d' := Crash(d, steps, i, k);
            LoadHeaders(crc, d'.slotA, d'.slotB).None? <==> TakesLastHeader(crc, d, steps[i], k)
  {
    hide Open;
    var l, steps := ActiveOf(crc, d), Open(crc, d).value.steps;
    if steps[i].Truncate? {
      TruncateFirst(crc, d, segs, tail, i);
      assert steps[..0] == [];
    } else {
      ClearIsLast(crc, d, segs, tail, i);
      CutDisk(d, segs, tail, RecEnd(segs));
      assert steps[..i] == CutSteps(segs, tail, RecEnd(segs));
      CutSlots(crc, d, DoAll(d, steps[..i]), l.activeB, steps[i], k);
    }
  }

  lemma {:induction false} CutSlots(crc: Checksum, d: Disk, d0: Disk, toB: bool, step: Step, k: nat)
    requires d0.slotA == d.slotA && d0.slotB == d.slotB && step.WriteSlot? && step.toB == toB
    ensures var d' := Cut(d0, step, k);
            LoadHeaders(crc, d'.slotA, d'.slotB).None? <==>
            FromBytes(crc, d.Slot(!toB)).None? && FromBytes(crc, Cut(d, step, k).Slot(toB)).None?
  {
    hide FromBytes;
  }

  // ---- Runs ----

  datatype Event =
    | Batch(frames: seq<Frame>)
    | BatchCrash(frames: seq<Frame>, step: nat, bytes: nat)
    | BatchFails(frames: seq<Frame>, step: nat, bytes: nat)    // a frame write fails, undoAppend, the engine stays up
    | Checkpoint(secs: seq<Section>)
    | CheckpointCrash(secs: seq<Section>, step: nat, bytes: nat)
    | Halt
    | Restart
    | RestartCrash(step: nat, bytes: nat)

  datatype State = Up(engine: Engine) | Down(disk: Disk)

  /** The checksum hypothesis at a restart: no layout that explains the disk hides a decodable offset in its residue. */
  ghost predicate NoAccident(crc: Checksum, d: Disk)
  {
    forall segs: seq<Segment>, tail: seq<byte> :: DiskOk(crc, d, segs, tail) ==> Silent(crc, d.area, segs)
  }

  ghost predicate BatchRoom(e: Engine, fs: seq<Frame>) { NullHeader(e.Active()).Fits() && Writable(fs) }

  ghost predicate CheckpointRoom(crc: Checksum, e: Engine, secs: seq<Section>)
  {
    Lists(secs, e.index) && SectionsFit(secs) && CheckpointHeader(e, |BlobBytes(crc, secs)|).Fits()
  }

  ghost predicate Next(crc: Checksum, s: State, ev: Event, s': State)
  {
    match ev
    case Batch(fs) => s.Up? && BatchRoom(s.engine, fs) && s' == Up(AfterBatch(crc, s.engine, fs))
    case BatchCrash(fs, i, k) =>
      && s.Up? && BatchRoom(s.engine, fs) && i < |BatchSteps(crc, s.engine, fs)|
      && CutObeysRule(crc, s.engine.disk, BatchSteps(crc, s.engine, fs), i, k)
      && s' == Down(Crash(s.engine.disk, BatchSteps(crc, s.engine, fs), i, k))
    case BatchFails(fs, i, k) =>
      && s.Up? && BatchRoom(s.engine, fs) && |TrimSteps(crc, s.engine)| <= i < |BatchSteps(crc, s.engine, fs)|
      && s' == Up(Undone(crc, s.engine, fs, i, k))
    case Checkpoint(secs) =>
      s.Up? && CheckpointRoom(crc, s.engine, secs) && s' == Up(AfterCheckpoint(crc, s.engine, BlobBytes(crc, secs)))
    case CheckpointCrash(secs, i, k) =>
      && s.Up? && CheckpointRoom(crc, s.engine, secs) && i < 2
      && CutObeysRule(crc, s.engine.disk, CheckpointSteps(crc, s.engine, BlobBytes(crc, secs)), i, k)
      && s' == Down(Crash(s.engine.disk, CheckpointSteps(crc, s.engine, BlobBytes(crc, secs)), i, k))
    case Halt => s.Up? && s' == Down(s.engine.disk)
    case Restart =>
      && s.Down?
      && (match Open(crc, s.disk)
          case None => s' == s
          case Some(p) => NoAccident(crc, s.disk) && s' == Up(p.engine))
    case RestartCrash(i, k) =>
      && s.Down? && NoAccident(crc, s.disk) && Open(crc, s.disk).Some? && i < |Open(crc, s.disk).value.steps|
      && CutObeysRule(crc, s.disk, Open(crc, s.disk).value.steps, i, k)
      && s' == Down(Crash(s.disk, Open(crc, s.disk).value.steps, i, k))
  }

  /** The one event that costs a file, told from the disk before it and from where it is cut. */
  ghost predicate Loses(crc: Checksum, s: State, ev: Event)
  {
    && ev.RestartCrash? && s.Down? && Open(crc, s.disk).Some? && ev.step < |Open(crc, s.disk).value.steps|
    && TakesLastHeader(crc, s.disk, Open(crc, s.disk).value.steps[ev.step], ev.bytes)
  }

  ghost predicate Lossless(crc: Checksum, states: seq<State>, events: seq<Event>)
    requires |states| == |events| + 1
  {
    forall j :: 0 <= j < |events| ==> !Loses(crc, states[j], events[j])
  }

  /** Any run from a created file. */
  ghost predicate Run(crc: Checksum, states: seq<State>, events: seq<Event>)
  {
    && |states| == |events| + 1 && states[0] == Up(Created(crc))
    && forall i :: 0 <= i < |events| ==> Next(crc, states[i], events[i], states[i + 1])
  }

  /** The frames one event adds to the log: all of a batch, a whole-frame prefix of a crashed one, none of a failed one. */
  predicate Contributes(ev: Event, part: seq<Frame>)
  {
    match ev
    case Batch(fs) => part == fs
    case BatchCrash(fs, _, _) => part <= fs
    case _ => part == []
  }

  ghost predicate Explains(log: seq<Frame>, events: seq<Event>)
    decreases |events|
  {
    if events == [] then log == []
    else
      exists m :: 0 <= m <= |log| && Explains(log[..m], events[..|events| - 1]) &&
                  Contributes(events[|events| - 1], log[m..])
  }

  ghost predicate Good(crc: Checksum, s: State, log: seq<Frame>)
  {
    match s
    case Up(e) => exists segs: seq<Segment>, c: nat :: Inv(crc, e, segs, c) && Recs(segs) == log
    case Down(d) => exists segs: seq<Segment>, tail: seq<byte> :: DiskOk(crc, d, segs, tail) && Recs(segs) == log
  }

  lemma {:induction false} CreatedInv(crc: Checksum)
    ensures Inv(crc, Created(crc), [], 0)
  {
    HeaderRoundTrip(crc, NewFileHeader());
    hide FromBytes;
    hide ToBytes;
  }

  lemma {:induction false} StepUp(crc: Checksum, e: Engine, ev: Event, s': State, log: seq<Frame>) returns (part: seq<Frame>)
    requires Good(crc, Up(e), log) && Next(crc, Up(e), ev, s')
    ensures Contributes(ev, part) && Good(crc, s', log + part)
  {
    hide Inv;
    hide DiskOk;
    hide CutObeysRule;
    hide AfterBatch;
    hide AfterCheckpoint;
    hide BatchSteps;
    hide CheckpointSteps;
    hide BlobBytes;
    hide Crash;
    hide Undone;
    hide Recs;
    var segs: seq<Segment>, c: nat :| Inv(crc, e, segs, c) && Recs(segs) == log;
    part := [];
    assert log + [] == log;
    match ev {
      case Batch(fs) =>
        var segs', c' := BatchInv(crc, e, segs, c, fs);
        part := fs;
      case BatchCrash(fs, i, k) =>
        var left, tail, n := BatchCut(crc, e, segs, c, fs, i, k);
        part := fs[..n];
      case BatchFails(fs, i, k) =>
        var left := UndoInv(crc, e, segs, c, fs, i, k);
      case Checkpoint(secs) =>
        CheckpointInv(crc, e, segs, c, secs);
      case CheckpointCrash(secs, i, k) =>
        var left, tail := CheckpointCut(crc, e, segs, c, secs, i, k);
      case Halt =>
        EngineDiskOk(crc, e, segs, c);
      case Restart =>
      case RestartCrash(i, k) =>
    }
  }

  lemma {:induction false} StepDown(crc: Checksum, d: Disk, ev: Event, s': State, log: seq<Frame>)
    requires Good(crc, Down(d), log) && Next(crc, Down(d), ev, s')
    ensures Contributes(ev, [])
    ensures if Loses(crc, Down(d), ev) then Lost(crc, s') else Good(crc, s', log)
  {
    hide Inv;
    hide DiskOk;
    hide Silent;
    hide CutObeysRule;
    hide Crash;
    hide Recs;
    hide TakesLastHeader;
    var segs: seq<Segment>, tail: seq<byte> :| DiskOk(crc, d, segs, tail) && Recs(segs) == log;
    OkOpens(crc, d, segs, tail);
    if ev.Restart? {
      var left, c := OpenInv(crc, d, segs, tail);
    } else {
      OpenCutExactly(crc, d, segs, tail, ev.step, ev.bytes);
      var left, rest := OpenCut(crc, d, segs, tail, ev.step, ev.bytes);
    }
  }

  lemma {:induction false} OkOpens(crc: Checksum, d: Disk, segs: seq<Segment>, tail: seq<byte>)
    requires DiskOk(crc, d, segs, tail)
    ensures Open(crc, d).Some?
  {
    hide LoadHeaders;
    hide AllOk;
    hide Torn;
    hide Scan;
    hide RestoreFromSnapshot;
  }

  /** No header reads back, so every Open is refused. */
  ghost predicate Lost(crc: Checksum, s: State) { s.Down? && Open(crc, s.disk).None? }

  lemma {:induction false} StaysLost(crc: Checksum, s: State, ev: Event, s': State)
    requires Lost(crc, s) && Next(crc, s, ev, s')
    ensures Lost(crc, s') && Contributes(ev, []) && !Loses(crc, s, ev)
  {
    hide Open;
  }

  lemma {:induction false} LostIsNotGood(crc: Checksum, s: State, log: seq<Frame>)
    requires Lost(crc, s)
    ensures !Good(crc, s, log)
  {
    hide LoadHeaders;
    hide AllOk;
    hide Torn;
  }

  /**
   * Crash safety. Over every run of batches, failed batches, checkpoints, halts and restarts, any of them stopped
   * after any byte of any disk step, the state reached holds exactly the log that explains the run: every completed
   * batch, nothing of a failed one and a whole-frame prefix of each one a crash cut short, in order. It does so
   * exactly when no interrupted restart took the last readable header; after one that did, no Open succeeds again.
   */
  lemma {:induction false} EveryRunKeepsItsLog(crc: Checksum, states: seq<State>, events: seq<Event>) returns (log: seq<Frame>)
    requires Run(crc, states, events)
    ensures Explains(log, events)
    ensures Good(crc, states[|events|], log) <==> Lossless(crc, states, events)
    ensures !Lossless(crc, states, events) ==> Lost(crc, states[|events|])
    decreases |events|
  {
    assert |states| == |events| + 1;
    hide Good;
    hide Run;
    hide Lossless;
    if events == [] {
      FirstState(crc, states);
      CreatedGood(crc);
      log := [];
    } else {
      hide Next;
      hide Loses;
      hide Lost;
      hide Contributes;
      var n := |events| - 1;
      RunPrefix(crc, states, events, n);
      var before := EveryRunKeepsItsLog(crc, states[..n + 1], events[..n]);
      var part := RunStep(crc, states[n], events[n], states[n + 1], before);
      log := before + part;
      assert log[..|before|] == before && log[|before|..] == part;
    }
  }

  lemma {:induction false} FirstState(crc: Checksum, states: seq<State>)
    requires Run(crc, states, [])
    ensures states[0] == Up(Created(crc)) && Lossless(crc, states, [])
  {
  }

  lemma {:induction false} RunPrefix(crc: Checksum, states: seq<State>, events: seq<Event>, n: nat)
    requires Run(crc, states, events) && n < |events|
    ensures Run(crc, states[..n + 1], events[..n]) && Next(crc, states[n], events[n], states[n + 1])
    ensures n + 1 == |events| ==>
              (Lossless(crc, states, events) <==> Lossless(crc, states[..n + 1], events[..n]) && !Loses(crc, states[n], events[n]))
  {
    hide Next;
    hide Loses;
    if n + 1 == |events| && Lossless(crc, states[..n + 1], events[..n]) && !Loses(crc, states[n], events[n]) {
      forall j | 0 <= j < |events|
        ensures !Loses(crc, states[j], events[j])
      {
        if j < n {
          assert states[..n + 1][j] == states[j] && events[..n][j] == events[j];
        }
      }
    }
  }

  lemma {:induction false} CreatedGood(crc: Checksum)
    ensures Good(crc, Up(Created(crc)), [])
  {
    CreatedInv(crc);
    hide Inv;
  }

  lemma {:induction false} RunStep(crc: Checksum, s: State, ev: Event, s': State, log: seq<Frame>) returns (part: seq<Frame>)
    requires (Good(crc, s, log) || Lost(crc, s)) && Next(crc, s, ev, s')
    ensures Contributes(ev, part)
    ensures Good(crc, s', log + part) <==> Good(crc, s, log) && !Loses(crc, s, ev)
    ensures !Good(crc, s', log + part) ==> Lost(crc, s')
  {
    hide Next;
    hide Contributes;
    hide Open;
    part := [];
    assert log + [] == log;
    if Lost(crc, s) {
      LostIsNotGood(crc, s, log);
      StaysLost(crc, s, ev, s');
      LostIsNotGood(crc, s', log);
    } else if s.Up? {
      hide Good;
      part := StepUp(crc, s.engine, ev, s', log);
    } else {
      hide Good;
      StepDown(crc, s.disk, ev, s', log);
      if Loses(crc, s, ev) {
        LostIsNotGood(crc, s', log);
      }
    }
  }

  /**
   * Wherever the run stopped, the file opens exactly when no interrupted restart took the last readable header,
   * and the engine it opens to holds that same log.
   */
  lemma {:induction false} EveryCrashReopens(crc: Checksum, states: seq<State>, events: seq<Event>) returns (log: seq<Frame>)
    requires Run(crc, states, events) && states[|events|].Down? && NoAccident(crc, states[|events|].disk)
    ensures Explains(log, events)
    ensures Open(crc, states[|events|].disk).Some? <==> Lossless(crc, states, events)
    ensures var p := Open(crc, states[|events|].disk); p.Some? ==> Good(crc, Up(p.value.engine), log)
  {
    hide DiskOk;
    hide Inv;
    hide Silent;
    hide Open;
    log := EveryRunKeepsItsLog(crc, states, events);
    if Lossless(crc, states, events) {
      var d := states[|events|].disk;
      var segs: seq<Segment>, tail: seq<byte> :| DiskOk(crc, d, segs, tail) && Recs(segs) == log;
      var left, c := OpenInv(crc, d, segs, tail);
    }
  }

  /** The same, as a host sees it: after any run a running engine reads as the plain map of the explained log. */
  lemma {:induction false} EveryRunReadsAsMap(crc: Checksum, states: seq<State>, events: seq<Event>) returns (log: seq<Frame>)
    requires Run(crc, states, events) && states[|events|].Up?
    ensures Explains(log, events)
    ensures forall agent: uint64, id: uint64 ::
              var view, got := View(log), ReadRecord(crc, states[|events|].engine, agent, id);
              (got.None? <==> (agent, id) !in view) &&
              ((agent, id) in view ==> got.value.Ok? && Value(got.value.frame.rtype, got.value.frame.data) == view[(agent, id)])
  {
    hide ReadRecord;
    hide View;
    hide Inv;
    log := EveryRunKeepsItsLog(crc, states, events);
    var e := states[|events|].engine;
    var segs: seq<Segment>, c: nat :| Inv(crc, e, segs, c) && Recs(segs) == log;
    forall agent: uint64, id: uint64
      ensures var view, got := View(log), ReadRecord(crc, e, agent, id);
              (got.None? <==> (agent, id) !in view) &&
              ((agent, id) in view ==> got.value.Ok? && Value(got.value.frame.rtype, got.value.frame.data) == view[(agent, id)])
    {
      ReadsAnswerAsMap(crc, e, segs, c, agent, id);
    }
  }

  /** Opening through a snapshot gives the index a full scan of the record area gives. */
  lemma {:induction false} SnapshotOpenIsFullScan(crc: Checksum, e: Engine, segs: seq<Segment>, c: nat)
    requires Inv(crc, e, segs, c) && NoAccident(crc, e.disk)
    ensures Open(crc, e.disk).Some? && Open(crc, e.disk).value.engine.index == e.index
    ensures Scan(crc, e.disk.area, 0, map[], 0).index == e.index
  {
    EngineDiskOk(crc, e, segs, c);
    OpenInvIndex(crc, e.disk, segs, []);
    FullScan(crc, e.disk, segs, [], 0);
  }

  /** A file that was closed or left as it is reopens to an engine holding the same log. */
  lemma {:induction false} ReopenKeepsLog(crc: Checksum, e: Engine, segs: seq<Segment>, c: nat)
    returns (left: seq<Segment>, c': nat)
    requires Inv(crc, e, segs, c) && NoAccident(crc, e.disk)
    ensures Open(crc, e.disk).Some? && Inv(crc, Open(crc, e.disk).value.engine, left, c') && Recs(left) == Recs(segs)
  {
    EngineDiskOk(crc, e, segs, c);
    hide Open;
    hide Inv;
    hide DiskOk;
    left, c' := OpenInv(crc, e.disk, segs, []);
  }

  lemma {:induction false} OpenInvIndex(crc: Checksum, d: Disk, segs: seq<Segment>, tail: seq<byte>)
    requires DiskOk(crc, d, segs, tail) && Silent(crc, d.area, segs)
    ensures Open(crc, d).Some? && Open(crc, d).value.engine.index == Replay(segs)
  {
    hide Open;
    hide FromBytes;
    var l := ActiveOf(crc, d);
    var h := l.Active();
    LoadedFits(crc, d, l);
    if h.snapOff != 0 && AllStrong(crc, d, segs, h) {
      var r: nat, b: nat :| NamedAt(h, segs, r, b);
      OpenBySnapshot(crc, d, segs, tail, l, r, b);
    } else {
      OpenByScan(crc, d, segs, tail, l);
    }
  }
}
