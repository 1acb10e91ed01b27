// When a run can cost a file its last readable header, and a run that does.
module HeaderLoss {
  import opened Common
  import opened Bytes
  import opened Frames
  import opened Snapshots
  import opened Headers
  import opened Recovery
  import opened Durability
  import opened Reopen
  import opened CrashSafety

  // ---- What it takes ----

  function DiskOf(s: State): Disk { if s.Up? then s.engine.disk else s.disk }

  /** The disk steps an event performs, or would have performed. */
  ghost function StepsOf(crc: Checksum, s: State, ev: Event): seq<Step>
  {
    match ev
    case Batch(fs) => if s.Up? then BatchSteps(crc, s.engine, fs) else []
    case BatchCrash(fs, _, _) => if s.Up? then BatchSteps(crc, s.engine, fs) else []
    case BatchFails(fs, _, _) => if s.Up? then BatchSteps(crc, s.engine, fs) else []
    case Checkpoint(secs) => if s.Up? then CheckpointSteps(crc, s.engine, BlobBytes(crc, secs)) else []
    case CheckpointCrash(secs, _, _) => if s.Up? then CheckpointSteps(crc, s.engine, BlobBytes(crc, secs)) else []
    case Halt => []
    case Restart => OpenStepsOf(crc, s)
    case RestartCrash(_, _) => OpenStepsOf(crc, s)
  }

  ghost function OpenStepsOf(crc: Checksum, s: State): seq<Step>
  {
    if s.Down? && Open(crc, s.disk).Some? then Open(crc, s.disk).value.steps else []
  }

  /** The process stops inside a header write. */
  ghost predicate CutsHeader(crc: Checksum, s: State, ev: Event)
  {
    (ev.BatchCrash? || ev.CheckpointCrash? || ev.RestartCrash?) && ev.step < |StepsOf(crc, s, ev)| &&
    StepsOf(crc, s, ev)[ev.step].WriteSlot?
  }

  predicate BothRead(crc: Checksum, d: Disk) { FromBytes(crc, d.slotA).Some? && FromBytes(crc, d.slotB).Some? }

  /** Every header the steps write reads back. */
  ghost predicate Readable(crc: Checksum, steps: seq<Step>)
  {
    forall i :: 0 <= i < |steps| && steps[i].WriteSlot? ==> FromBytes(crc, steps[i].bytes).Some?
  }

  lemma {:induction false} WholeStepsKeepHeaders(crc: Checksum, d: Disk, steps: seq<Step>)
    requires BothRead(crc, d) && Readable(crc, steps)
    ensures BothRead(crc, DoAll(d, steps))
    decreases |steps|
  {
    hide FromBytes;
    if steps != [] {
      var rest := steps[1..];
      assert forall i :: 0 <= i < |rest| ==> rest[i] == steps[i + 1];
      WholeStepsKeepHeaders(crc, Do(d, steps[0]), rest);
    }
  }

  lemma {:induction false} CutKeepsHeaders(crc: Checksum, d: Disk, steps: seq<Step>, i: nat, k: nat)
    requires BothRead(crc, d) && Readable(crc, steps) && i < |steps| && !steps[i].WriteSlot?
    ensures BothRead(crc, Crash(d, steps, i, k))
  {
    hide FromBytes;
    hide DoAll;
    assert Readable(crc, steps[..i]);
    WholeStepsKeepHeaders(crc, d, steps[..i]);
  }

  lemma {:induction false} BatchReadable(crc: Checksum, e: Engine, segs: seq<Segment>, c: nat, fs: seq<Frame>)
    requires Inv(crc, e, segs, c) && BatchRoom(e, fs)
    ensures Readable(crc, BatchSteps(crc, e, fs))
  {
    InvHeaders(crc, e, segs, c);
    hide Inv;
    hide FromBytes;
    hide ToBytes;
    hide Encode;
    HeaderRoundTrip(crc, NullHeader(e.Active()));
  }

  lemma {:induction false} CheckpointReadable(crc: Checksum, e: Engine, segs: seq<Segment>, c: nat, secs: seq<Section>)
    requires Inv(crc, e, segs, c) && CheckpointRoom(crc, e, secs)
    ensures Readable(crc, CheckpointSteps(crc, e, BlobBytes(crc, secs)))
  {
    InvHeaders(crc, e, segs, c);
    hide Inv;
    hide FromBytes;
    hide ToBytes;
    hide BlobBytes;
    hide Lists;
    HeaderRoundTrip(crc, CheckpointHeader(e, |BlobBytes(crc, secs)|));
  }

  lemma {:induction false} OpenReadable(crc: Checksum, d: Disk)
    requires Open(crc, d).Some?
    ensures Readable(crc, Open(crc, d).value.steps)
    ensures Open(crc, d).value.engine.disk == DoAll(d, Open(crc, d).value.steps)
  {
    var l := ActiveOf(crc, d);
    LoadedFits(crc, d, l);
    HeaderRoundTrip(crc, Cleared(l.Active()));
    hide FromBytes;
    hide ToBytes;
    hide LoadHeaders;
    hide Scan;
    hide RestoreFromSnapshot;
    hide DoAll;
  }

  /** An event that is not stopped inside a header write leaves both headers readable. */
  lemma {:induction false} EventKeepsHeaders(crc: Checksum, s: State, ev: Event, s': State, log: seq<Frame>)
    requires Good(crc, s, log) && Next(crc, s, ev, s') && BothRead(crc, DiskOf(s)) && !CutsHeader(crc, s, ev)
    ensures BothRead(crc, DiskOf(s'))
  {
    hide Inv;
    hide DiskOk;
    hide BothRead;
    hide Readable;
    hide CutObeysRule;
    hide NoAccident;
    hide BatchRoom;
    hide CheckpointRoom;
    hide Open;
    hide Crash;
    hide DoAll;
    hide Recs;
    var steps, d := StepsOf(crc, s, ev), DiskOf(s);
    if s.Up? {
      var segs: seq<Segment>, c: nat :| Inv(crc, s.engine, segs, c) && Recs(segs) == log;
      match ev {
        case Batch(fs) =>
          BatchReadable(crc, s.engine, segs, c, fs);
          WholeStepsKeepHeaders(crc, d, steps);
          WholeBatch(crc, s.engine, fs);
        case BatchCrash(fs, i, k) =>
          BatchReadable(crc, s.engine, segs, c, fs);
          CutKeepsHeaders(crc, d, steps, i, k);
        case BatchFails(fs, i, k) =>
          BatchReadable(crc, s.engine, segs, c, fs);
          FailedWriteIsAppend(crc, s.engine, fs, i);
          CutKeepsHeaders(crc, d, steps, i, k);
          TruncateKeepsHeaders(crc, Crash(d, steps, i, k), DATA_START + |AfterTrim(crc, s.engine).disk.area|);
        case Checkpoint(secs) =>
          CheckpointReadable(crc, s.engine, segs, c, secs);
          WholeStepsKeepHeaders(crc, d, steps);
          WholeCheckpoint(crc, s.engine, BlobBytes(crc, secs));
        case CheckpointCrash(secs, i, k) =>
          CheckpointReadable(crc, s.engine, segs, c, secs);
          CutKeepsHeaders(crc, d, steps, i, k);
        case Halt =>
      }
    } else if Open(crc, d).Some? {
      OpenReadable(crc, d);
      match ev {
        case Restart => WholeStepsKeepHeaders(crc, d, steps);
        case RestartCrash(i, k) => CutKeepsHeaders(crc, d, steps, i, k);
      }
    }
  }

  lemma {:induction false} WholeBatch(crc: Checksum, e: Engine, fs: seq<Frame>)
    ensures AfterBatch(crc, e, fs).disk == DoAll(e.disk, BatchSteps(crc, e, fs))
  {
  }

  lemma {:induction false} WholeCheckpoint(crc: Checksum, e: Engine, blob: seq<byte>)
    ensures AfterCheckpoint(crc, e, blob).disk == DoAll(e.disk, CheckpointSteps(crc, e, blob))
  {
    hide DoAll;
  }

  lemma {:induction false} FailedWriteIsAppend(crc: Checksum, e: Engine, fs: seq<Frame>, i: nat)
    requires |TrimSteps(crc, e)| <= i < |BatchSteps(crc, e, fs)|
    ensures BatchSteps(crc, e, fs)[i].Append?
  {
  }

  lemma {:induction false} TruncateKeepsHeaders(crc: Checksum, d: Disk, n: nat)
    requires BothRead(crc, d)
    ensures BothRead(crc, Do(d, Truncate(n)))
  {
    hide FromBytes;
  }

  lemma {:induction false} UncutRunKeepsHeaders(crc: Checksum, states: seq<State>, events: seq<Event>, n: nat)
    requires Run(crc, states, events) && n <= |events|
    requires forall i :: 0 <= i < n ==> !CutsHeader(crc, states[i], events[i])
    ensures BothRead(crc, DiskOf(states[n]))
  {
    hide CutsHeader;
    hide BothRead;
    hide Next;
    hide Good;
    hide Lost;
    if n == 0 {
      CreatedReads(crc);
    } else {
      UncutRunKeepsHeaders(crc, states, events, n - 1);
      RunPrefix(crc, states, events, n - 1);
      var log := EveryRunKeepsItsLog(crc, states[..n], events[..n - 1]);
      StillReads(crc, states[n - 1]);
      EventKeepsHeaders(crc, states[n - 1], events[n - 1], states[n], log);
    }
  }

  lemma {:induction false} CreatedReads(crc: Checksum)
    ensures BothRead(crc, DiskOf(Up(Created(crc))))
  {
    HeaderRoundTrip(crc, NewFileHeader());
    hide FromBytes;
    hide ToBytes;
  }

  lemma {:induction false} StillReads(crc: Checksum, s: State)
    requires BothRead(crc, DiskOf(s))
    ensures !Lost(crc, s)
  {
    hide FromBytes;
    hide Scan;
    hide RestoreFromSnapshot;
  }

  lemma {:induction false} LossMeansSpareGone(crc: Checksum, s: State, ev: Event)
    requires Loses(crc, s, ev)
    ensures CutsHeader(crc, s, ev) && !BothRead(crc, DiskOf(s))
  {
    hide FromBytes;
    hide Scan;
    hide RestoreFromSnapshot;
  }

  /** It takes two crashes inside header writes to lose a file: the one that loses it, and one before. */
  lemma {:induction false} LossTakesTwoHeaderCuts(crc: Checksum, states: seq<State>, events: seq<Event>, j: nat)
    requires Run(crc, states, events) && j < |events| && Loses(crc, states[j], events[j])
    ensures CutsHeader(crc, states[j], events[j])
    ensures exists i :: 0 <= i < j && CutsHeader(crc, states[i], events[i])
  {
    assert |states| == |events| + 1;
    hide Run;
    hide Open;
    LossMeansSpareGone(crc, states[j], events[j]);
    hide BothRead;
    hide CutsHeader;
    hide Loses;
    if forall i :: 0 <= i < j ==> !CutsHeader(crc, states[i], events[i]) {
      UncutRunKeepsHeaders(crc, states, events, j);
      assert false;
    }
  }

  /** Wherever one crash falls, and any number outside header writes, the file is kept. */
  lemma {:induction false} OneHeaderCutIsSurvived(crc: Checksum, states: seq<State>, events: seq<Event>) returns (log: seq<Frame>)
    requires Run(crc, states, events)
    requires forall i, j :: 0 <= i < j < |events| ==> !CutsHeader(crc, states[i], events[i]) || !CutsHeader(crc, states[j], events[j])
    ensures Explains(log, events) && Good(crc, states[|events|], log)
  {
    log := EveryRunKeepsItsLog(crc, states, events);
    hide Run;
    hide Good;
    hide Lost;
    hide CutsHeader;
    hide Loses;
    forall j | 0 <= j < |events|
      ensures !Loses(crc, states[j], events[j])
    {
      if Loses(crc, states[j], events[j]) {
        LossTakesTwoHeaderCuts(crc, states, events, j);
      }
    }
  }

  /** The header that is not the active one reads back. */
  ghost predicate SpareReads(crc: Checksum, d: Disk)
  {
    LoadHeaders(crc, d.slotA, d.slotB).Some? ==> FromBytes(crc, d.Slot(!ActiveOf(crc, d).activeB)).Some?
  }

  /** A file is kept when every Open that is interrupted starts with its inactive header readable. */
  lemma {:induction false} SpareHeaderIsEnough(crc: Checksum, states: seq<State>, events: seq<Event>) returns (log: seq<Frame>)
    requires Run(crc, states, events)
    requires forall j :: 0 <= j < |events| && events[j].RestartCrash? && states[j].Down? ==> SpareReads(crc, states[j].disk)
    ensures Explains(log, events) && Good(crc, states[|events|], log)
  {
    log := EveryRunKeepsItsLog(crc, states, events);
    hide Run;
    hide Good;
    hide Lost;
    hide FromBytes;
    hide Scan;
    hide RestoreFromSnapshot;
  }

  // ---- How a file is lost ----

  /** A header write cut just before its checksum is refused by every checksum that tells the two headers apart. */
  lemma {:induction false} CutBeforeChecksum(crc: Checksum, slot: seq<byte>, meant: FileHeader)
    requires FromBytes(crc, slot).Some? && crc(Sealed(meant)) != crc(slot[..4088])
    ensures FromBytes(crc, ToBytes(crc, meant)[..4088] + slot[4088..]).None?
  {
    var t := ToBytes(crc, meant)[..4088] + slot[4088..];
    assert t[..4088] == Sealed(meant) && t[4088..4092] == slot[4088..4092];
  }

  /** The crash points: in the trim's header write, then in the header write of the Open that follows. */
  ghost function AfterTrimTorn(crc: Checksum, e: Engine): Disk
  {
    Cut(Do(e.disk, Truncate(e.nextOffset)), WriteSlot(!e.activeB, ToBytes(crc, NullHeader(e.Active()))), 4088)
  }

  /**
   * From any engine whose tail snapshot the next batch will trim: a crash in the trim's header write and one in the
   * header write of the Open that follows cost the file.
   */
  lemma {:induction false} TwoHeaderCutsLoseTheFile(crc: Checksum, e: Engine, segs: seq<Segment>, c: nat, fs: seq<Frame>)
    returns (i: nat, d: Disk)
    requires Inv(crc, e, segs, c) && BatchRoom(e, fs) && fs != [] && BothRead(crc, e.disk)
    requires e.Active().snapOff != 0 && DATA_START <= e.nextOffset < DATA_START + |e.disk.area|
    requires crc(Sealed(NullHeader(e.Active()))) != crc(e.disk.Slot(!e.activeB)[..4088])
    requires crc(Sealed(Cleared(e.Active()))) != crc(e.disk.Slot(e.activeB)[..4088])
    requires NoAccident(crc, AfterTrimTorn(crc, e))
    ensures Next(crc, Up(e), BatchCrash(fs, 1, 4088), Down(AfterTrimTorn(crc, e)))
    ensures Next(crc, Down(AfterTrimTorn(crc, e)), RestartCrash(i, 4088), Down(d))
    ensures Lost(crc, Down(d))
  {
    var d1 := AfterTrimTorn(crc, e);
    TrimTears(crc, e, segs, c, fs);
    i, d := OpenTears(crc, d1, e.Active(), e.activeB);
  }

  lemma {:induction false} TrimTears(crc: Checksum, e: Engine, segs: seq<Segment>, c: nat, fs: seq<Frame>)
    requires Inv(crc, e, segs, c) && BatchRoom(e, fs) && fs != [] && BothRead(crc, e.disk)
    requires e.Active().snapOff != 0 && DATA_START <= e.nextOffset < DATA_START + |e.disk.area|
    requires crc(Sealed(NullHeader(e.Active()))) != crc(e.disk.Slot(!e.activeB)[..4088])
    ensures var d := AfterTrimTorn(crc, e);
            && Next(crc, Up(e), BatchCrash(fs, 1, 4088), Down(d))
            && FromBytes(crc, d.Slot(!e.activeB)).None? && d.Slot(e.activeB) == e.disk.Slot(e.activeB)
            && FromBytes(crc, d.Slot(e.activeB)) == Some(e.Active())
            && e.Active().NamesSnapshot() && e.Active().snapOff + e.Active().snapLen > DATA_START + |d.area|
  {
    CutBeforeChecksum(crc, e.disk.Slot(!e.activeB), NullHeader(e.Active()));
    InvSlots(crc, e, segs, c);
    hide Inv;
    hide FromBytes;
    hide ToBytes;
    hide Encode;
    var steps, d := BatchSteps(crc, e, fs), AfterTrimTorn(crc, e);
    assert steps[..1] == [steps[0]];
    OneStep(e.disk, steps[0]);
    assert Crash(e.disk, steps, 1, 4088) == d;
  }

  lemma {:induction false} InvSlots(crc: Checksum, e: Engine, segs: seq<Segment>, c: nat)
    requires Inv(crc, e, segs, c) && e.Active().snapOff != 0
    ensures SlotSizes(e.disk) && SnapshotAtTail(e.Active(), |e.disk.area|)
    ensures FromBytes(crc, e.disk.Slot(e.activeB)) == Some(e.Active())
  {
    hide FromBytes;
    hide AllOk;
    hide AllStrong;
    hide Replay;
    hide AreaBytes;
  }

  lemma {:induction false} OpenTears(crc: Checksum, d: Disk, h: FileHeader, activeB: bool) returns (i: nat, d': Disk)
    requires FromBytes(crc, d.Slot(activeB)) == Some(h) && FromBytes(crc, d.Slot(!activeB)).None?
    requires h.NamesSnapshot() && h.snapOff + h.snapLen > DATA_START + |d.area|
    requires crc(Sealed(Cleared(h))) != crc(d.Slot(activeB)[..4088])
    requires NoAccident(crc, d)
    ensures Next(crc, Down(d), RestartCrash(i, 4088), Down(d')) && Lost(crc, Down(d'))
  {
    CutBeforeChecksum(crc, d.Slot(activeB), Cleared(h));
    assert |d.Slot(activeB)| == HEADER_SIZE;
    var cut := OpenClears(crc, d, h, activeB);
    hide FromBytes;
    hide ToBytes;
    hide NoAccident;
    hide Open;
    hide Next;
    hide Lost;
    var steps, clear := Open(crc, d).value.steps, WriteSlot(activeB, ToBytes(crc, Cleared(h)));
    i := |cut|;
    assert steps[..i] == cut && steps[i] == clear;
    if cut != [] {
      OneStep(d, cut[0]);
    }
    var d0 := DoAll(d, cut);
    assert d0.slotA == d.slotA && d0.slotB == d.slotB;
    hide DoAll;
    d' := Crash(d, steps, i, 4088);
    CutSlots(crc, d, d0, activeB, clear, 4088);
    RefusedIsLost(crc, d');
    assert CutObeysRule(crc, d, steps, i, 4088);
    Interrupted(crc, d, i, 4088);
  }

  lemma {:induction false} Interrupted(crc: Checksum, d: Disk, i: nat, k: nat)
    requires NoAccident(crc, d) && Open(crc, d).Some? && i < |Open(crc, d).value.steps|
    requires CutObeysRule(crc, d, Open(crc, d).value.steps, i, k)
    ensures Next(crc, Down(d), RestartCrash(i, k), Down(Crash(d, Open(crc, d).value.steps, i, k)))
  {
    hide NoAccident;
    hide Open;
    hide CutObeysRule;
    hide Crash;
  }

  lemma {:induction false} RefusedIsLost(crc: Checksum, d: Disk)
    requires LoadHeaders(crc, d.slotA, d.slotB).None?
    ensures Lost(crc, Down(d))
  {
    hide LoadHeaders;
    hide Scan;
    hide RestoreFromSnapshot;
  }

  /** An active header whose snapshot is beyond the end of the file is cleared in place, after at most one truncation. */
  lemma {:induction false} OpenClears(crc: Checksum, d: Disk, h: FileHeader, activeB: bool) returns (cut: seq<Step>)
    requires FromBytes(crc, d.Slot(activeB)) == Some(h) && FromBytes(crc, d.Slot(!activeB)).None?
    requires h.NamesSnapshot() && h.snapOff + h.snapLen > DATA_START + |d.area|
    ensures Open(crc, d).Some? && Open(crc, d).value.steps == cut + [WriteSlot(activeB, ToBytes(crc, Cleared(h)))]
    ensures cut == [] || (|cut| == 1 && cut[0].Truncate?)
  {
    hide FromBytes;
    hide ToBytes;
    hide Scan;
    hide DoAll;
    hide Parse;
    var got := Scan(crc, d.area, 0, map[], h.snapOff);
    cut := if got.truncate then [Truncate(DATA_START + got.end)] else [];
  }

  // ---- A run that loses a file ----

  const RECORD: Frame := Frame(1, 1, 0, 7, [])
  const LISTING: seq<Section> := [Section(1, [Entry(7, 8192)])]
  const SNAPSHOT_HEADER: FileHeader := FileHeader(FORMAT_VERSION, 0, 1, 8218, 41, 1, 0, 8218)

  /** The headers the run writes over each other have different checksums. */
  ghost predicate TellsApart(crc: Checksum)
  {
    crc(Sealed(NullHeader(SNAPSHOT_HEADER))) != crc(Sealed(NewFileHeader())) &&
    crc(Sealed(Cleared(SNAPSHOT_HEADER))) != crc(Sealed(SNAPSHOT_HEADER))
  }

  lemma {:induction false} FrameStart(crc: Checksum, f: Frame)
    requires f.Fits()
    ensures Encode(crc, f)[0] == f.rtype && FromLE(Encode(crc, f)[2..6]) == |f.data|
  {
    var b := Encode(crc, f);
    assert b[0..22] == Head(f);
    HeadFields(crc, b, 0, f);
  }

  lemma {:induction false} SamePrefix(x: seq<byte>, y: seq<byte>, n: nat, i: nat, j: nat)
    requires i <= j <= n <= |x| && n <= |y| && x[..n] == y[..n]
    ensures x[i..j] == y[i..j]
  {
    assert x[i..j] == x[..n][i..j] && y[i..j] == y[..n][i..j];
  }

  /** A segment that shares its first bytes with a record frame is as long as that frame. */
  lemma {:induction false} SameHeadSameSize(crc: Checksum, s: Segment, f: Frame)
    requires s.Ok(crc) && f.Fits() && f.rtype != 0x50
    requires var b, n := Encode(crc, f), if |s.bytes| <= f.Size() then |s.bytes| else f.Size();
             s.bytes[..n] == b[..n]
    ensures s.Rec? && |s.bytes| == f.Size()
  {
    FrameStart(crc, f);
    FirstByte(crc, s);
    hide Encode;
    hide BlobBytes;
    hide FromLE;
    var b := Encode(crc, f);
    var n := if |s.bytes| <= |b| then |s.bytes| else |b|;
    SamePrefix(s.bytes, b, n, 0, 1);
    assert s.bytes[0] == s.bytes[0..1][0] && b[0] == b[0..1][0];
    match s {
      case Blob(secs, _) => BlobFirstByte(crc, secs);
      case Rec(g, x) =>
        FrameStart(crc, g);
        SamePrefix(x, b, n, 2, 6);
    }
  }

  /** A file that holds one record frame has only one layout. */
  lemma {:induction false} SoleLayout(crc: Checksum, f: Frame, segs: seq<Segment>, tail: seq<byte>)
    requires AllOk(crc, segs) && Torn(crc, tail) && f.Fits() && f.rtype != 0x50
    requires AreaBytes(segs) + tail == Encode(crc, f)
    ensures |segs| == 1 && segs[0].Rec? && tail == []
  {
    hide Encode;
    if segs == [] {
      assert tail == Encode(crc, f);
      var s: Segment :| s.Ok(crc) && |tail| < |s.bytes| && tail == s.bytes[..|tail|];
      assert tail[..|tail|] == tail;
      SameHeadSameSize(crc, s, f);
      assert false;
    } else {
      SegmentAt(segs, tail, 0);
      assert segs[0] in segs && segs[..0] == [];
      SameHeadSameSize(crc, segs[0], f);
      OkNonEmpty(crc, segs);
      PosStep(segs, 0);
      PosEnd(segs);
      PosMonotone(segs, 1, |segs|);
    }
  }

  lemma {:induction false} OneRecordIsSilent(crc: Checksum, d: Disk, f: Frame)
    requires d.area == Encode(crc, f) && f.Fits() && f.rtype != 0x50
    ensures NoAccident(crc, d)
  {
    forall segs: seq<Segment>, tail: seq<byte> | DiskOk(crc, d, segs, tail)
      ensures Silent(crc, d.area, segs)
    {
      hide Encode;
      SoleLayout(crc, f, segs, tail);
      hide AllOk;
      hide DecodesAt;
      assert AreaBytes(segs) + [] == AreaBytes(segs);
    }
  }

  const INDEX: Index := map[1 := map[7 := 8192]]

  function Written(crc: Checksum): Engine
  {
    var h := NewFileHeader();
    Engine(Disk(ToBytes(crc, h), ToBytes(crc, h), Encode(crc, RECORD)), h, h, false, INDEX, 8218)
  }

  function Checkpointed(crc: Checksum): Engine
  {
    var h := NewFileHeader();
    var disk := Disk(ToBytes(crc, h), ToBytes(crc, SNAPSHOT_HEADER), Encode(crc, RECORD) + BlobBytes(crc, LISTING));
    Engine(disk, h, SNAPSHOT_HEADER, true, INDEX, 8218)
  }

  lemma {:induction false} FirstBatch(crc: Checksum)
    ensures BatchRoom(Created(crc), [RECORD]) && AfterBatch(crc, Created(crc), [RECORD]) == Written(crc)
  {
    hide ToBytes;
    hide Encode;
    var steps := FrameSteps(crc, [RECORD]);
    assert BatchSteps(crc, Created(crc), [RECORD]) == steps == [Append(Encode(crc, RECORD))];
    OneStep(Created(crc).disk, Append(Encode(crc, RECORD)));
    assert [] + Encode(crc, RECORD) == Encode(crc, RECORD);
    assert [RECORD][1..] == [];
    assert MergeAll(map[], [RECORD], DATA_START) == INDEX;
  }

  lemma {:induction false} ListingOfIndex(crc: Checksum)
    ensures Lists(LISTING, INDEX) && SectionsFit(LISTING) && |BlobBytes(crc, LISTING)| == 41
    ensures TotalRecords(INDEX) == 1
  {
    var es := [Entry(7, 8192)];
    assert es[..0] == [] && LISTING[..0] == [];
    assert EntriesMap(es) == map[7 := 8192];
    assert SectionsIndex(LISTING) == INDEX;
    assert 1 in INDEX && INDEX[1] == map[7 := 8192];
    assert 7 in INDEX[1];
    assert Prune(INDEX) == INDEX;
    assert LiveKeys(INDEX) == {(1, 7)};
    assert SectionsBytes(LISTING) == SectionsBytes([]) + SectionBytes(LISTING[0]);
  }

  lemma {:induction false} FirstCheckpoint(crc: Checksum)
    ensures CheckpointRoom(crc, Written(crc), LISTING)
    ensures AfterCheckpoint(crc, Written(crc), BlobBytes(crc, LISTING)) == Checkpointed(crc)
  {
    ListingOfIndex(crc);
    hide ToBytes;
    hide Encode;
    hide BlobBytes;
    hide Lists;
    hide SectionsFit;
    hide TotalRecords;
    var e, blob := Written(crc), BlobBytes(crc, LISTING);
    assert CheckpointHeader(e, 41) == SNAPSHOT_HEADER;
    TwoSteps(e.disk, Append(blob), WriteSlot(true, ToBytes(crc, SNAPSHOT_HEADER)));
    hide DoAll;
  }

  /** Under every checksum that tells the headers apart: one record written and checkpointed, two crashes, no file. */
  lemma {:induction false} LostFileRun(crc: Checksum) returns (states: seq<State>, events: seq<Event>)
    requires TellsApart(crc)
    ensures Run(crc, states, events) && Lost(crc, states[|events|])
    ensures |events| == 4 && events[..3] == [Batch([RECORD]), Checkpoint(LISTING), BatchCrash([RECORD], 1, 4088)]
    ensures events[3].RestartCrash?
  {
    var e := Checkpointed(crc);
    var early, done := [Up(Created(crc)), Up(Written(crc)), Up(e)], [Batch([RECORD]), Checkpoint(LISTING)];
    EarlyRun(crc);
    hide Next;
    var i, d := TwoCutsAfterCheckpoint(crc);
    hide Lost;
    states := early + [Down(AfterTrimTorn(crc, e)), Down(d)];
    events := done + [BatchCrash([RECORD], 1, 4088), RestartCrash(i, 4088)];
  }

  lemma {:induction false} EarlyRun(crc: Checksum)
    ensures Run(crc, [Up(Created(crc)), Up(Written(crc)), Up(Checkpointed(crc))], [Batch([RECORD]), Checkpoint(LISTING)])
  {
    FirstBatch(crc);
    FirstCheckpoint(crc);
    hide AfterBatch;
    hide AfterCheckpoint;
    hide Created;
    hide Written;
    hide Checkpointed;
    hide BatchRoom;
    hide CheckpointRoom;
  }

  lemma {:induction false} TwoCutsAfterCheckpoint(crc: Checksum) returns (i: nat, d: Disk)
    requires TellsApart(crc)
    ensures var e := Checkpointed(crc);
            && Next(crc, Up(e), BatchCrash([RECORD], 1, 4088), Down(AfterTrimTorn(crc, e)))
            && Next(crc, Down(AfterTrimTorn(crc, e)), RestartCrash(i, 4088), Down(d)) && Lost(crc, Down(d))
  {
    var e := Checkpointed(crc);
    var segs, c := CheckpointedInv(crc);
    UncutHeaders(crc);
    TornArea(crc);
    OneRecordIsSilent(crc, AfterTrimTorn(crc, e), RECORD);
    SealedSlots(crc);
    hide Next;
    hide Lost;
    hide Inv;
    hide NoAccident;
    hide BothRead;
    hide Sealed;
    hide ToBytes;
    hide Encode;
    hide AfterTrimTorn;
    i, d := TwoHeaderCutsLoseTheFile(crc, e, segs, c, [RECORD]);
  }

  lemma {:induction false} UncutHeaders(crc: Checksum)
    ensures BothRead(crc, Checkpointed(crc).disk)
  {
    EarlyRun(crc);
    hide Run;
    hide BothRead;
    UncutRunKeepsHeaders(crc, [Up(Created(crc)), Up(Written(crc)), Up(Checkpointed(crc))], [Batch([RECORD]), Checkpoint(LISTING)], 2);
  }

  lemma {:induction false} CheckpointedInv(crc: Checksum) returns (segs: seq<Segment>, c: nat)
    ensures Inv(crc, Checkpointed(crc), segs, c)
  {
    FirstBatch(crc);
    FirstCheckpoint(crc);
    CreatedInv(crc);
    hide Inv;
    hide AfterBatch;
    hide AfterCheckpoint;
    hide Created;
    hide Written;
    hide Checkpointed;
    segs, c := BatchInv(crc, Created(crc), [], 0, [RECORD]);
    CheckpointInv(crc, Written(crc), segs, c, LISTING);
    segs := segs + [Blob(LISTING, BlobBytes(crc, LISTING))];
  }

  lemma {:induction false} TornArea(crc: Checksum)
    ensures AfterTrimTorn(crc, Checkpointed(crc)).area == Encode(crc, RECORD)
    ensures |Checkpointed(crc).disk.area| > 26
  {
    ListingOfIndex(crc);
    hide ToBytes;
    hide BlobBytes;
    var b := Encode(crc, RECORD);
    assert |b| == 26;
    hide Encode;
    assert (b + BlobBytes(crc, LISTING))[..26] == b;
  }

  lemma {:induction false} SealedSlots(crc: Checksum)
    ensures Checkpointed(crc).disk.slotA[..4088] == Sealed(NewFileHeader())
    ensures Checkpointed(crc).disk.slotB[..4088] == Sealed(SNAPSHOT_HEADER)
  {
    hide Sealed;
  }

  /** Adds two of the fields: enough to tell the headers of the run apart. */
  function FieldSum(b: seq<byte>): uint32
  {
    if |b| < 24 then 0 else (b[8] as int) + 256 * (b[17] as int)
  }

  lemma {:induction false} SumOfHeader(h: FileHeader)
    ensures FieldSum(Sealed(h)) == h.commit % 256 + 256 * (h.snapOff / 256 % 256)
  {
    var b, c, o := Sealed(h), LE(h.commit, 8), LE(h.snapOff, 8);
    assert b[8] == FieldBytes(h)[4] == c[0];
    assert b[17] == FieldBytes(h)[13] == o[1];
    assert o[1] == LE(h.snapOff / 256, 7)[0];
  }

  /** A checksum and a run under it after which the file does not open, though its record was written and checkpointed. */
  lemma {:induction false} CrashesCanLoseAFile() returns (crc: Checksum, states: seq<State>, events: seq<Event>)
    ensures Run(crc, states, events) && Lost(crc, states[|events|])
    ensures Explains([RECORD], events)
  {
    hide Run;
    hide Lost;
    hide TellsApart;
    crc := FieldSum;
    FieldSumTellsApart();
    states, events := LostFileRun(crc);
    ExplainedByItsRecord(events);
  }

  lemma {:induction false} FieldSumTellsApart()
    ensures TellsApart(FieldSum)
  {
    SumOfHeader(NewFileHeader());
    SumOfHeader(SNAPSHOT_HEADER);
    SumOfHeader(NullHeader(SNAPSHOT_HEADER));
    SumOfHeader(Cleared(SNAPSHOT_HEADER));
    hide Sealed;
    hide FieldSum;
  }

  lemma {:induction false} ExplainedByItsRecord(events: seq<Event>)
    requires |events| == 4 && events[..3] == [Batch([RECORD]), Checkpoint(LISTING), BatchCrash([RECORD], 1, 4088)]
    requires events[3].RestartCrash?
    ensures Explains([RECORD], events)
  {
    hide Explains;
    assert Explains([], []) by { NothingExplained(); }
    assert [] + [RECORD] == [RECORD] && [RECORD] + [] == [RECORD];
    assert forall i :: 0 <= i < 4 ==> events[..i + 1] == events[..i] + [events[i]];
    assert events[0] == events[..3][0] && events[1] == events[..3][1] && events[2] == events[..3][2];
    ExplainsMore([], events[..0], events[0], [RECORD]);
    ExplainsMore([RECORD], events[..1], events[1], []);
    ExplainsMore([RECORD], events[..2], events[2], []);
    ExplainsMore([RECORD], events[..3], events[3], []);
    assert events[..4] == events;
  }

  lemma {:induction false} NothingExplained()
    ensures Explains([], [])
  {
  }

  lemma {:induction false} ExplainsMore(log: seq<Frame>, events: seq<Event>, ev: Event, part: seq<Frame>)
    requires Explains(log, events) && Contributes(ev, part)
    ensures Explains(log + part, events + [ev])
  {
    var all, next := log + part, events + [ev];
    assert next[..|events|] == events && all[..|log|] == log && all[|log|..] == part;
  }
}
