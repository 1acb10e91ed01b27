// StorageEngine: the engine object itself, its fields updated in place one disk step at a time.
module StorageEngines {
  import opened Common
  import opened Bytes
  import opened Frames
  import opened Snapshots
  import opened Headers
  import opened Recovery
  import opened Durability
  import opened Reopen
  import opened CrashSafety
  import opened TypeIndexes
  import opened Compaction

  datatype RecordEntry = RecordEntry(agent: uint64, rtype: byte, id: uint64, data: seq<byte>)

  function FrameOf(r: RecordEntry): Frame { Frame(r.agent, r.rtype, 0, r.id, r.data) }

  function FramesOf(rs: seq<RecordEntry>): (fs: seq<Frame>)
    ensures |fs| == |rs| && forall i :: 0 <= i < |rs| ==> fs[i] == FrameOf(rs[i])
  {
    seq(|rs|, i requires 0 <= i < |rs| => FrameOf(rs[i]))
  }

  function Tombstone(agent: uint64, rt: byte, id: uint64): Frame { Frame(agent, rt, FLAG_DELETED, id, []) }

  /** What applyDeletions leaves of one domain: the ids gone, the domain too when nothing is left in it. */
  function RemoveIds(idx: Index, agent: uint64, ids: set<uint64>): Index
  {
    if agent !in idx then idx
    else
      var m := idx[agent] - ids;
      if m == map[] then idx - {agent} else idx[agent := m]
  }

  // ---- Facts the methods use ----

  lemma {:induction false} OffsetsInside(crc: Checksum, segs: seq<Segment>, agent: uint64, id: uint64)
    requires AllOk(crc, segs) && Holds(Replay(segs), agent, id)
    ensures DATA_START <= Replay(segs)[agent][id] < DATA_START + |AreaBytes(segs)|
    ensures TypeAt(AreaBytes(segs), Replay(segs)[agent][id]).value != 0
  {
    assert segs[..|segs|] == segs;
    LiveFrame(crc, segs, |segs|, agent, id);
  }

  /** Every live offset is the start of a frame of the layout, of a nonzero type. */
  lemma {:induction false} LiveFrame(crc: Checksum, segs: seq<Segment>, n: nat, agent: uint64, id: uint64)
    requires AllOk(crc, segs) && n <= |segs| && Holds(Replay(segs[..n]), agent, id)
    ensures var off := Replay(segs[..n])[agent][id];
            DATA_START <= off < DATA_START + |AreaBytes(segs)| && AreaBytes(segs)[off - DATA_START] != 0
  {
    assert segs[..0] == [];
    if n > 0 {
      hide Encode;
      hide BlobBytes;
      PosStep(segs, n - 1);
      if segs[n - 1].Rec? {
        MergeLookup(Replay(segs[..n - 1]), segs[n - 1].frame, DATA_START + Pos(segs, n - 1), agent, id);
        assert segs[n - 1] in segs;
        SegmentAtClean(segs, n - 1);
        FirstByte(crc, segs[n - 1]);
        assert AreaBytes(segs)[Pos(segs, n - 1)] ==
               AreaBytes(segs)[Pos(segs, n - 1)..Pos(segs, n - 1) + |segs[n - 1].bytes|][0];
      }
      hide Merge;
      if Holds(Replay(segs[..n - 1]), agent, id) {
        LiveFrame(crc, segs, n - 1, agent, id);
      }
    }
  }

  /** The type index survives any change of the area behind the frames it lists. */
  lemma {:induction false} InStepGrown(crc: Checksum, segs: seq<Segment>, x: seq<byte>, y: seq<byte>, m: TypeIndex)
    requires AllOk(crc, segs) && InStep(AreaBytes(segs) + x, Replay(segs), m)
    ensures InStep(AreaBytes(segs) + y, Replay(segs), m)
  {
    forall a: uint64, i: uint64 | Holds(Replay(segs), a, i)
      ensures TypeAt(AreaBytes(segs) + y, Replay(segs)[a][i]) == TypeAt(AreaBytes(segs) + x, Replay(segs)[a][i])
    {
      OffsetsInside(crc, segs, a, i);
    }
    hide InStep;
    hide TypeAt;
    InStepFrame(AreaBytes(segs) + x, AreaBytes(segs) + y, Replay(segs), Replay(segs), m);
  }

  /** Dropping ids one by one is removing them together. */
  lemma {:induction false} DropMore(idx: Index, agent: uint64, ids: set<uint64>, id: uint64)
    ensures RemoveIds(Drop(idx, agent, id), agent, ids) == RemoveIds(idx, agent, ids + {id})
  {
    if agent in idx {
      assert (idx[agent] - {id}) - ids == idx[agent] - (ids + {id});
    }
  }

  lemma {:induction false} TombstonesRemove(idx: Index, agent: uint64, fs: seq<Frame>, offset: nat)
    requires forall f :: f in fs ==> f.Deleted() && f.agent == agent
    ensures NoEmptyDomain(idx) ==> MergeAll(idx, fs, offset) == RemoveIds(idx, agent, set f | f in fs :: f.id)
    decreases fs
  {
    if NoEmptyDomain(idx) {
      if fs == [] {
        assert (set f | f in fs :: f.id) == {};
        if agent in idx {
          assert idx[agent] - {} == idx[agent];
        }
      } else {
        MergeNoEmpty(idx, fs[0], offset);
        TombstonesRemove(Merge(idx, fs[0], offset), agent, fs[1..], offset + fs[0].Size());
        assert (set f | f in fs :: f.id) == (set f | f in fs[1..] :: f.id) + {fs[0].id} by {
          assert fs == [fs[0]] + fs[1..];
        }
        DropMore(idx, agent, set f | f in fs[1..] :: f.id, fs[0].id);
      }
    }
  }

  lemma {:induction false} CutBehind(area: seq<byte>, e: seq<byte>, rest: seq<byte>, k: nat)
    requires |e| <= k <= |e + rest|
    ensures area + (e + rest)[..k] == (area + e) + rest[..k - |e|]
  {
    assert (e + rest)[..k] == e + rest[..k - |e|];
  }

  /** One write of several frames leaves, cut anywhere, what the frame-by-frame writes leave cut somewhere. */
  lemma {:induction false} OneWriteCut(crc: Checksum, d: Disk, fs: seq<Frame>, k: nat) returns (j: nat, r: nat)
    requires fs != [] && k <= |EncodeAll(crc, fs)|
    ensures j < |fs| && Cut(d, Append(EncodeAll(crc, fs)), k) == Crash(d, FrameSteps(crc, fs), j, r)
    decreases fs
  {
    hide Encode;
    var e, steps := Encode(crc, fs[0]), FrameSteps(crc, fs);
    var all := e + EncodeAll(crc, fs[1..]);
    assert steps[..0] == [];
    if k <= |e| {
      j, r := 0, k;
      assert all[..k] == e[..k];
    } else {
      var d1, rest := Do(d, Append(e)), EncodeAll(crc, fs[1..]);
      var j1, r1 := OneWriteCut(crc, d1, fs[1..], k - |e|);
      hide EncodeAll;
      hide DoAll;
      j, r := j1 + 1, r1;
      CutBehind(d.area, e, rest, k);
      assert FrameSteps(crc, fs[1..]) == steps[1..];
      hide FrameSteps;
      assert steps[..j] == [steps[0]] + steps[1..][..j1];
      DoAllSplit(d, [steps[0]], steps[1..][..j1]);
      OneStep(d, steps[0]);
    }
  }

  lemma {:induction false} OneWriteWhole(crc: Checksum, d: Disk, fs: seq<Frame>)
    ensures Do(d, Append(EncodeAll(crc, fs))) == DoAll(d, FrameSteps(crc, fs))
    decreases fs
  {
    hide Encode;
    if fs == [] {
      assert d.area + [] == d.area;
    } else {
      var e, steps := Encode(crc, fs[0]), FrameSteps(crc, fs);
      OneWriteWhole(crc, Do(d, Append(e)), fs[1..]);
      assert steps[1..] == FrameSteps(crc, fs[1..]);
      assert d.area + (e + EncodeAll(crc, fs[1..])) == (d.area + e) + EncodeAll(crc, fs[1..]);
    }
  }

  datatype Outcome<+T> = Done(value: T) | Closed

  class StorageEngine {
    const crc: Checksum
    var disk: Disk
    var headerA: FileHeader
    var headerB: FileHeader
    var activeB: bool
    var index: Index
    var byAgentType: TypeIndex
    var nextOffset: nat
    var closed: bool

    /** Every disk step performed so far, and the layout the area then has, its append point at segment c. */
    ghost var steps: seq<Step>
    ghost var segs: seq<Segment>
    ghost var c: nat

    ghost function State(): Engine
      reads this
    {
      Engine(disk, headerA, headerB, activeB, index, nextOffset)
    }

    ghost predicate Valid()
      reads this
    {
      Inv(crc, State(), segs, c) && InStep(disk.area, index, byAgentType)
    }

    /** All frames written, in order. */
    ghost function Log(): seq<Frame>
      reads this
    {
      Recs(segs)
    }

    /** The commit counter can still be advanced. */
    ghost predicate Room()
      reads this
    {
      NullHeader(State().Active()).Fits()
    }

    function ActiveHeader(): FileHeader
      reads this
    {
      if activeB then headerB else headerA
    }

    constructor Create(crc: Checksum)
      ensures Valid() && State() == Created(crc) && Log() == [] && this.crc == crc && !closed && steps == []
    {
      var h := NewFileHeader();
      this.crc := crc;
      disk := Disk(ToBytes(crc, h), ToBytes(crc, h), []);
      headerA, headerB, activeB := h, h, false;
      index, byAgentType := map[], map[];
      nextOffset, closed := DATA_START, false;
      steps, segs, c := [], [], 0;
      new;
      CreatedInv(crc);
    }

    method Perform(s: Step)
      modifies this`disk, this`steps
      ensures disk == Do(old(disk), s) && steps == old(steps) + [s]
    {
      disk := Do(disk, s);
      steps := steps + [s];
    }

    method SwitchHeader(h: FileHeader)
      modifies this`headerA, this`headerB, this`activeB
      ensures State() == old(State()).Switched(h)
    {
      if activeB {
        headerA, activeB := h, false;
      } else {
        headerB, activeB := h, true;
      }
    }

    method WriteNullSnapshotHeader()
      modifies this`disk, this`steps, this`headerA, this`headerB, this`activeB
      ensures var n := NullHeader(old(State()).Active());
              var s := WriteSlot(!old(activeB), ToBytes(crc, n));
              steps == old(steps) + [s] && State() == old(State()).(disk := Do(old(disk), s)).Switched(n)
    {
      var n := NullHeader(ActiveHeader());
      Perform(WriteSlot(!activeB, ToBytes(crc, n)));
      SwitchHeader(n);
    }

    method TrimTailSnapshot()
      modifies this`disk, this`steps, this`headerA, this`headerB, this`activeB
      ensures State() == AfterTrim(crc, old(State()))
      ensures steps == old(steps) + TrimSteps(crc, old(State()))
    {
      var h := ActiveHeader();
      if h.snapOff == 0 || h.snapLen == 0 {
        return;
      }
      if h.snapOff + h.snapLen != DATA_START + |disk.area| {
        return;
      }
      Perform(Truncate(nextOffset));
      WriteNullSnapshotHeader();
      hide ToBytes;
      TwoSteps(old(disk), Truncate(old(nextOffset)), WriteSlot(!old(activeB), ToBytes(crc, NullHeader(h))));
    }

    /** One frame per record, each at the end of the file; the offsets say where. */
    method AppendFrames(rs: seq<RecordEntry>) returns (offsets: seq<nat>)
      modifies this`disk, this`steps
      ensures disk == DoAll(old(disk), FrameSteps(crc, FramesOf(rs)))
      ensures steps == old(steps) + FrameSteps(crc, FramesOf(rs))
      ensures |offsets| == |rs|
      ensures forall i :: 0 <= i < |rs| ==>
                offsets[i] == DATA_START + |DoAll(old(disk), FrameSteps(crc, FramesOf(rs))[..i]).area|
    {
      ghost var plan := FrameSteps(crc, FramesOf(rs));
      offsets := [];
      for i := 0 to |rs|
        invariant disk == DoAll(old(disk), plan[..i])
        invariant steps == old(steps) + plan[..i]
        invariant |offsets| == i
        invariant forall j :: 0 <= j < i ==> offsets[j] == DATA_START + |DoAll(old(disk), plan[..j]).area|
      {
        var encoded := EncodeRecord(crc, FrameOf(rs[i]));
        offsets := offsets + [DATA_START + |disk.area|];
        Perform(Append(encoded));
        hide Encode;
        assert plan[..i + 1] == plan[..i] + [plan[i]];
        DoAllSplit(old(disk), plan[..i], [plan[i]]);
        OneStep(DoAll(old(disk), plan[..i]), plan[i]);
      }
      assert plan[..|rs|] == plan;
    }

    /** updateIndexAfterWrite: the new frames enter both indexes, a re-written id moves to its new type. */
    method UpdateIndexAfterWrite(rs: seq<RecordEntry>, offsets: seq<nat>, ghost left: seq<Segment>)
      requires var more := FrameSegs(crc, FramesOf(rs));
               && AllOk(crc, left + more) && disk.area == AreaBytes(left + more)
               && index == Replay(left) && InStep(disk.area, index, byAgentType)
               && |offsets| == |rs|
               && forall i :: 0 <= i < |rs| ==> offsets[i] == DATA_START + |AreaBytes(left + more[..i])|
      modifies this`index, this`byAgentType
      ensures index == Replay(left + FrameSegs(crc, FramesOf(rs))) && InStep(disk.area, index, byAgentType)
    {
      hide InStep;
      hide AllOk;
      hide Encode;
      hide Replay;
      hide AreaBytes;
      hide Put;
      hide AddType;
      hide Moved;
      hide TypeAt;
      hide FrameSegs;
      ghost var more := FrameSegs(crc, FramesOf(rs));
      assert left + more[..0] == left;
      for i := 0 to |rs|
        invariant index == Replay(left + more[..i]) && InStep(disk.area, index, byAgentType)
      {
        assert left + more[..i + 1] == (left + more[..i]) + [more[i]];
        ReplaySnoc(left + more[..i], more[i]);
        TypeOfWritten(crc, left, rs, i);
        WriteStep(disk.area, index, byAgentType, rs[i].agent, rs[i].rtype, rs[i].id, offsets[i]);
        IndexOne(rs[i], offsets[i]);
      }
      assert more[..|rs|] == more;
    }

    method IndexOne(rec: RecordEntry, offset: nat)
      modifies this`index, this`byAgentType
      ensures index == Put(old(index), rec.agent, rec.id, offset)
      ensures byAgentType == AddType(Moved(disk.area, old(index), old(byAgentType), rec.agent, rec.rtype, rec.id),
                                     rec.agent, rec.rtype, rec.id)
    {
      if Holds(index, rec.agent, rec.id) {
        var was := TypeAt(disk.area, index[rec.agent][rec.id]);
        if was.Some? && was.value != rec.rtype {
          byAgentType := RemoveType(byAgentType, rec.agent, was.value, rec.id);
        }
      }
      index := Put(index, rec.agent, rec.id, offset);
      byAgentType := AddType(byAgentType, rec.agent, rec.rtype, rec.id);
    }

    /** WriteRecordBatch: the batch is appended and flushed whole, then indexed. */
    method WriteRecordBatch(rs: seq<RecordEntry>) returns (r: Outcome<seq<nat>>)
      requires Valid() && Room() && Writable(FramesOf(rs))
      modifies this
      ensures old(closed) ==> r == Closed && State() == old(State()) && closed && Valid() && Log() == old(Log())
      ensures !old(closed) ==>
                && r.Done? && |r.value| == |rs| && !closed
                && Valid() && State() == AfterBatch(crc, old(State()), FramesOf(rs))
                && steps == old(steps) + BatchSteps(crc, old(State()), FramesOf(rs))
                && Log() == old(Log()) + FramesOf(rs)
    {
      hide Inv;
      hide InStep;
      if closed {
        return Closed;
      }
      if rs == [] {
        assert Log() + FramesOf(rs) == Log();
        assert steps + [] == steps;
        return Done([]);
      }
      var offsets := AppendBatch(rs);
      return Done(offsets);
    }

    method AppendBatch(rs: seq<RecordEntry>) returns (offsets: seq<nat>)
      requires Valid() && Room() && rs != [] && Writable(FramesOf(rs))
      modifies this
      ensures |offsets| == |rs| && closed == old(closed) && Valid()
      ensures State() == AfterBatch(crc, old(State()), FramesOf(rs))
      ensures steps == old(steps) + BatchSteps(crc, old(State()), FramesOf(rs))
      ensures Log() == old(Log()) + FramesOf(rs)
    {
      hide Inv;
      hide InStep;
      hide AfterTrim;
      hide TrimSteps;
      hide FrameSteps;
      hide AfterBatch;
      hide BatchSteps;
      hide DoAll;
      hide Replay;
      hide Recs;
      hide AreaBytes;
      hide AllOk;
      hide BlobRange;
      hide NullHeader;
      hide Writable;
      ghost var e0, fs := State(), FramesOf(rs);
      ghost var left := WritePlan(crc, e0, segs, c, rs, byAgentType);
      offsets := AppendBehind(rs);
      UpdateIndexAfterWrite(rs, offsets, left);
      segs, c := left + FrameSegs(crc, fs), |left + FrameSegs(crc, fs)|;
    }

    /** The disk half of a batch: trim, append, and move the append point behind the last frame. */
    method AppendBehind(rs: seq<RecordEntry>) returns (offsets: seq<nat>)
      requires rs != []
      modifies this`disk, this`steps, this`headerA, this`headerB, this`activeB, this`nextOffset
      ensures var t, plan := AfterTrim(crc, old(State())), FrameSteps(crc, FramesOf(rs));
              && State() == t.(disk := DoAll(t.disk, plan), nextOffset := DATA_START + |DoAll(t.disk, plan).area|)
              && steps == old(steps) + (TrimSteps(crc, old(State())) + plan) && |offsets| == |rs|
              && forall i :: 0 <= i < |rs| ==> offsets[i] == DATA_START + |DoAll(t.disk, plan[..i]).area|
    {
      hide AfterTrim;
      hide TrimSteps;
      hide FrameSteps;
      hide DoAll;
      TrimTailSnapshot();
      offsets := AppendFrames(rs);
      LastOffset(crc, AfterTrim(crc, old(State())).disk, FramesOf(rs));
      nextOffset := offsets[|offsets| - 1] + RECORD_HEADER_SIZE + |rs[|rs| - 1].data|;
    }

    /** buildTombstones: one frame per listed id that is live, an id listed twice twice. */
    method BuildTombstones(agent: uint64, ids: seq<uint64>) returns (frames: seq<byte>, live: map<uint64, nat>, deleted: nat)
      ensures var fs := Tombstones(disk.area, index, agent, ids);
              frames == EncodeAll(crc, fs) && deleted == |fs|
      ensures forall id :: id in live <==> id in ids && Holds(index, agent, id)
      ensures forall id :: id in live ==> Holds(index, agent, id) && live[id] == index[agent][id]
    {
      frames, live, deleted := [], map[], 0;
      assert ids[..0] == [];
      for i := 0 to |ids|
        invariant frames == EncodeAll(crc, Tombstones(disk.area, index, agent, ids[..i]))
        invariant deleted == |Tombstones(disk.area, index, agent, ids[..i])|
        invariant forall id :: id in live <==> id in ids[..i] && Holds(index, agent, id)
        invariant forall id :: id in live ==> Holds(index, agent, id) && live[id] == index[agent][id]
      {
        hide Encode;
        hide EncodeAll;
        assert ids[..i + 1] == ids[..i] + [ids[i]];
        TombstonesSnoc(disk.area, index, agent, ids[..i], ids[i]);
        if Holds(index, agent, ids[i]) {
          var rt := TypeAt(disk.area, index[agent][ids[i]]);
          var f := Tombstone(agent, if rt.Some? then rt.value else 0, ids[i]);
          EncodeAllSnoc(crc, Tombstones(disk.area, index, agent, ids[..i]), f);
          var encoded := EncodeRecord(crc, f);
          frames := frames + encoded;
          live := live[ids[i] := index[agent][ids[i]]];
          deleted := deleted + 1;
        }
      }
      assert ids[..|ids|] == ids;
    }

    /** applyDeletions: the tombstoned ids leave both indexes, the domain when it was emptied. */
    method ApplyDeletions(agent: uint64, live: map<uint64, nat>)
      requires live.Keys != {} && forall id :: id in live ==> Holds(index, agent, id) && live[id] == index[agent][id]
      requires InStep(disk.area, index, byAgentType)
      requires forall id :: id in live ==> TypeAt(disk.area, live[id]).Some?
      modifies this`index, this`byAgentType
      ensures index == RemoveIds(old(index), agent, live.Keys) && InStep(disk.area, index, byAgentType)
    {
      hide InStep;
      hide TypeAt;
      ghost var idx0 := index;
      var todo := live.Keys;
      ghost var any :| any in live.Keys;
      assert Holds(index, agent, any);
      assert index[agent] - (live.Keys - todo) == index[agent];
      while todo != {}
        invariant todo <= live.Keys
        invariant index == idx0[agent := idx0[agent] - (live.Keys - todo)]
        invariant InStep(disk.area, index, byAgentType)
        decreases |todo|
      {
        var id :| id in todo;
        var rt := TypeAt(disk.area, live[id]);
        DropStep(disk.area, index, byAgentType, agent, rt.value, id);
        assert (idx0[agent] - (live.Keys - todo)) - {id} == idx0[agent] - (live.Keys - (todo - {id}));
        index := index[agent := index[agent] - {id}];
        byAgentType := RemoveType(byAgentType, agent, rt.value, id);
        todo := todo - {id};
      }
      assert live.Keys - {} == live.Keys;
      if index[agent] == map[] {
        ghost var unpruned := index;
        index := index - {agent};
        assert forall a: uint64, i: uint64 :: Holds(index, a, i) <==> Holds(unpruned, a, i);
        InStepFrame(disk.area, disk.area, unpruned, index, byAgentType);
        assert index == idx0 - {agent};
      }
    }

    /** DeleteRecordBatch: tombstones for the live ids, in one write; ids the domain does not hold are skipped. */
    method DeleteRecordBatch(agent: uint64, ids: seq<uint64>) returns (r: Outcome<nat>)
      requires Valid() && Room()
      modifies this
      ensures old(closed) ==> r == Closed && State() == old(State()) && closed && Valid() && Log() == old(Log())
      ensures var fs := Tombstones(old(disk.area), old(index), agent, ids);
              !old(closed) ==>
                && r == Done(|fs|) && !closed && Valid()
                && State() == AfterBatch(crc, old(State()), fs) && Log() == old(Log()) + fs
                && steps == old(steps) + (if fs == [] then [] else TrimSteps(crc, old(State())) + [Append(EncodeAll(crc, fs))])
    {
      hide Inv;
      hide InStep;
      if closed {
        return Closed;
      }
      var frames, live, deleted := BuildTombstones(agent, ids);
      if deleted == 0 {
        assert Log() + [] == Log() && steps + [] == steps;
        return Done(0);
      }
      DeleteLive(agent, ids, frames, live);
      return Done(deleted);
    }

    method DeleteLive(agent: uint64, ids: seq<uint64>, frames: seq<byte>, live: map<uint64, nat>)
      requires Valid() && Room()
      requires var fs := Tombstones(disk.area, index, agent, ids); fs != [] && frames == EncodeAll(crc, fs)
      requires forall id :: id in live <==> id in ids && Holds(index, agent, id)
      requires forall id :: id in live ==> Holds(index, agent, id) && live[id] == index[agent][id]
      modifies this
      ensures var fs := Tombstones(old(disk.area), old(index), agent, ids);
              && closed == old(closed) && Valid()
              && State() == AfterBatch(crc, old(State()), fs) && Log() == old(Log()) + fs
              && steps == old(steps) + (TrimSteps(crc, old(State())) + [Append(EncodeAll(crc, fs))])
    {
      hide Inv;
      hide InStep;
      hide AfterTrim;
      hide TrimSteps;
      hide FrameSteps;
      hide AfterBatch;
      hide DoAll;
      hide Replay;
      hide Recs;
      hide AreaBytes;
      hide AllOk;
      hide EncodeAll;
      hide RemoveIds;
      hide Tombstones;
      hide TypeAt;
      hide BlobRange;
      hide AddType;
      hide NullHeader;
      hide FrameSegs;
      hide Writable;
      ghost var e0, fs := State(), Tombstones(disk.area, index, agent, ids);
      ghost var left := DeletePlan(crc, e0, segs, c, agent, ids, byAgentType, live);
      AppendTombstones(frames, fs);
      ApplyDeletions(agent, live);
      segs, c := left + FrameSegs(crc, fs), |left + FrameSegs(crc, fs)|;
    }

    /** appendSnapshot: the blob goes behind everything, then a header naming it into the inactive slot. */
    method AppendSnapshot(blob: seq<byte>)
      modifies this`disk, this`steps, this`headerA, this`headerB, this`activeB
      ensures State() == AfterCheckpoint(crc, old(State()), blob)
      ensures steps == old(steps) + CheckpointSteps(crc, old(State()), blob)
    {
      var snapOffset := DATA_START + |disk.area|;
      Perform(Append(blob));
      var total := TotalRecordsLocked(index);
      var h := ActiveHeader().(commit := ActiveHeader().commit + 1, snapOff := snapOffset, snapLen := |blob|,
                               recordCount := total, recordEnd := nextOffset);
      assert h == CheckpointHeader(old(State()), |blob|);
      hide ToBytes;
      Perform(WriteSlot(!activeB, ToBytes(crc, h)));
      SwitchHeader(h);
      TwoSteps(old(disk), Append(blob), WriteSlot(!old(activeB), ToBytes(crc, h)));
    }

    /** Checkpoint: the log is unchanged and the engine stays in step, when the header fields can hold the sizes. */
    method Checkpoint() returns (r: Outcome<()>, ghost secs: seq<Section>)
      requires Valid()
      modifies this
      ensures closed == old(closed) && Lists(secs, old(index)) && (r == Closed <==> closed) && Log() == old(Log())
      ensures closed ==> State() == old(State()) && Valid()
      ensures !closed ==>
                && State() == AfterCheckpoint(crc, old(State()), BlobBytes(crc, secs))
                && steps == old(steps) + CheckpointSteps(crc, old(State()), BlobBytes(crc, secs))
                && (CheckpointRoom(crc, old(State()), secs) ==> Valid())
    {
      hide Inv;
      hide InStep;
      var blob;
      blob, secs := BuildSnapshot(crc, index);
      if closed {
        return Closed, secs;
      }
      ghost var room := CheckpointRoom(crc, State(), secs);
      if room {
        CheckpointValid(crc, State(), segs, c, secs, byAgentType);
      }
      hide AfterCheckpoint;
      hide CheckpointRoom;
      hide CheckpointSteps;
      hide BlobBytes;
      hide Recs;
      AppendSnapshot(blob);
      if room {
        segs := segs + [Blob(secs, blob)];
      }
      return Done(()), secs;
    }

    /** Close: a last checkpoint, after which every operation answers Closed. */
    method Close() returns (r: Outcome<()>, ghost secs: seq<Section>)
      requires Valid()
      modifies this
      ensures closed && Lists(secs, old(index)) && (r == Closed <==> old(closed))
      ensures old(closed) ==> State() == old(State()) && Valid() && Log() == old(Log())
      ensures !old(closed) ==>
                && State() == AfterCheckpoint(crc, old(State()), BlobBytes(crc, secs))
                && (CheckpointRoom(crc, old(State()), secs) ==> Valid() && Log() == old(Log()))
    {
      hide Inv;
      hide InStep;
      hide AfterCheckpoint;
      hide CheckpointRoom;
      r, secs := Checkpoint();
      closed := true;
    }

    /** A read answers as the plain map of everything written so far. */
    method ReadRecord(agent: uint64, id: uint64) returns (r: Outcome<Option<Value>>)
      requires Valid()
      ensures r == if closed then Closed
                   else Done(if (agent, id) in View(Log()) then Some(View(Log())[(agent, id)]) else None)
    {
      if closed {
        return Closed;
      }
      ReadsAnswerAsMap(crc, State(), segs, c, agent, id);
      hide Inv;
      hide InStep;
      hide View;
      hide Recs;
      if !(Holds(index, agent, id) && index[agent][id] >= DATA_START) {
        return Done(None);
      }
      var got := RecordData(crc, disk.area, index[agent][id] - DATA_START);
      return Done(Some(Value(got.frame.rtype, got.frame.data)));
    }

    method Contains(agent: uint64, id: uint64) returns (r: bool)
      requires Valid()
      ensures r <==> !closed && (agent, id) in View(Log())
    {
      ReplayAgrees(crc, segs, [], |segs|);
      assert segs[..|segs|] == segs && AreaBytes(segs) + [] == AreaBytes(segs);
      hide View;
      hide Recs;
      hide Replay;
      return !closed && Holds(index, agent, id);
    }

    /** IndexByType lists exactly the records of one type: none missing, none of another type or domain. */
    method IndexByType(agent: uint64, rt: byte) returns (ids: set<uint64>)
      requires Valid()
      ensures forall id: uint64 :: id in ids <==>
                !closed && (agent, id) in View(Log()) && View(Log())[(agent, id)].rtype == rt
    {
      if closed {
        return {};
      }
      ids := if (agent, rt) in byAgentType then byAgentType[(agent, rt)] else {};
      forall id: uint64
        ensures id in ids <==> (agent, id) in View(Log()) && View(Log())[(agent, id)].rtype == rt
      {
        TypeOfLive(crc, segs, agent, id);
        hide View;
        hide Recs;
        hide Replay;
        hide TypeAt;
        hide AreaBytes;
        assert Listed(byAgentType, agent, rt, id) <==> Typed(disk.area, index, agent, rt, id);
      }
    }

    constructor Restore(crc: Checksum, plan: Plan, byType: TypeIndex, ghost segs: seq<Segment>, ghost c: nat)
      ensures State() == plan.engine && steps == plan.steps && byAgentType == byType && !closed && this.crc == crc
      ensures this.segs == segs && this.c == c
    {
      var e := plan.engine;
      this.crc := crc;
      disk, headerA, headerB, activeB := e.disk, e.hA, e.hB, e.activeB;
      index, byAgentType, nextOffset, closed := e.index, byType, e.nextOffset, false;
      steps, this.segs, this.c := plan.steps, segs, c;
    }

    static method RestoreIndex(crc: Checksum, area: seq<byte>, h: FileHeader) returns (from: Restored)
      ensures from == RestoreFromSnapshot(crc, area, h)
    {
      if !h.NamesSnapshot() {
        return Restored(map[], 0, false, false);
      }
      if h.snapOff < DATA_START || h.snapOff + h.snapLen > DATA_START + |area| {
        return Restored(map[], 0, false, true);
      }
      var start := h.snapOff - DATA_START;
      var got := ParseSnapshot(crc, area[start..start + h.snapLen]);
      hide Parse;
      if got.None? {
        return Restored(map[], 0, false, true);
      }
      return Restored(got.value, start + h.snapLen, true, false);
    }

    /** The disk and fields Open leads to: restore, scan, drop the residue, clear a broken snapshot pointer. */
    static method OpenPlan(crc: Checksum, d: Disk) returns (r: Option<Plan>)
      ensures r == Durability.Open(crc, d)
    {
      var headers := LoadHeaders(crc, d.slotA, d.slotB);
      if headers.None? {
        return None;
      }
      var l := headers.value;
      var h := l.Active();
      var from := RestoreIndex(crc, d.area, h);
      var got := ScanRecords(crc, d.area, from.start, from.index, h.snapOff);
      hide Scan;
      hide RestoreFromSnapshot;
      hide LoadHeaders;
      hide ToBytes;
      hide DoAll;
      hide RecoverRecordAreaEnd;
      var steps: seq<Step>, next := [], DATA_START + got.end;
      if got.truncate {
        steps := [Truncate(DATA_START + got.end)];
      } else if from.loaded && got.end == from.start {
        next := RecoverRecordAreaEnd(crc, d.area, h);
      }
      var hA, hB := l.hA, l.hB;
      if from.corrupt {
        steps := steps + [WriteSlot(l.activeB, ToBytes(crc, Cleared(h)))];
        if l.activeB {
          hB := Cleared(h);
        } else {
          hA := Cleared(h);
        }
      }
      assert steps == (if got.truncate then [Truncate(DATA_START + got.end)] else []) +
                      (if from.corrupt then [WriteSlot(l.activeB, ToBytes(crc, Cleared(h)))] else []);
      return Some(Plan(steps, Engine(DoAll(d, steps), hA, hB, l.activeB, got.index, next)));
    }

    /**
     * Open. Refused exactly when neither header reads back; on any disk a crash may leave, the engine holds
     * exactly the frames of that disk and its type index is the one the incremental updates would have kept.
     */
    static method Open(crc: Checksum, d: Disk, ghost was: seq<Segment>, ghost tail: seq<byte>) returns (r: Option<StorageEngine>)
      ensures r.None? <==> LoadHeaders(crc, d.slotA, d.slotB).None?
      ensures r.Some? ==>
                && fresh(r.value) && r.value.State() == Durability.Open(crc, d).value.engine && !r.value.closed
                && InStep(r.value.disk.area, r.value.index, r.value.byAgentType) && r.value.crc == crc
      ensures DiskOk(crc, d, was, tail) && Silent(crc, d.area, was) ==>
                r.Some? && r.value.Valid() && r.value.Log() == Recs(was)
    {
      hide DiskOk;
      hide Silent;
      hide Recs;
      hide Inv;
      hide InStep;
      var plan := OpenPlan(crc, d);
      OpenRefused(crc, d);
      hide Durability.Open;
      ghost var left: seq<Segment>, c: nat := [], 0;
      if DiskOk(crc, d, was, tail) && Silent(crc, d.area, was) {
        left, c := OpenInv(crc, d, was, tail);
      }
      if plan.None? {
        return None;
      }
      var byType := RebuildByAgentType(plan.value.engine.disk.area, plan.value.engine.index);
      var e := new StorageEngine.Restore(crc, plan.value, byType, left, c);
      return Some(e);
    }

    /** A file that was only ever appended to: its area is the encoding of its log and no header names a snapshot. */
    ghost predicate Plain()
      reads this
    {
      && Valid() && !closed && State().Active() == NewFileHeader()
      && disk.area == EncodeAll(crc, Log()) && nextOffset == DATA_START + |disk.area|
    }

    /** One flush of Compact's copy. */
    method Flush(rs: seq<RecordEntry>)
      requires Plain() && Writable(FramesOf(rs))
      modifies this
      ensures Plain() && Log() == old(Log()) + FramesOf(rs)
    {
      hide Inv;
      hide InStep;
      hide EncodeAll;
      PlainBatch(crc, State(), FramesOf(rs));
      EncodeAllSplit(crc, Log(), FramesOf(rs));
      hide AfterBatch;
      hide BatchSteps;
      var _ := WriteRecordBatch(rs);
    }

    /** The copy of one domain: its records in any order, flushed every CHUNK records and once at the end. */
    method CopyDomain(out: StorageEngine, agent: uint64) returns (unread: Option<uint64>)
      requires Valid() && out != this && out.Plain() && out.crc == crc && agent in index
      requires Clean(out.Log()) && forall k :: k in View(out.Log()) ==> k.0 != agent
      modifies out
      ensures out.Plain() && (unread.Some? <==> closed)
      ensures unread.None? ==> Clean(out.Log()) && View(out.Log()) == old(View(out.Log())) + DomainPart(View(Log()), agent, {})
    {
      hide Inv;
      hide InStep;
      hide View;
      hide Recs;
      hide Clean;
      hide EncodeAll;
      hide RecordData;
      ghost var view, had := View(Log()), View(out.Log());
      var area := if closed then [] else disk.area;
      var batch: seq<RecordEntry>, todo := [], index[agent].Keys;
      NothingPending(out.Log());
      DomainStart(crc, State(), segs, c, agent);
      hide DomainPart;
      hide Writable;
      while todo != {}
        invariant todo <= index[agent].Keys && |batch| < CHUNK
        invariant out.Plain() && Writable(FramesOf(batch)) && Clean(out.Log() + FramesOf(batch))
        invariant View(out.Log() + FramesOf(batch)) == had + DomainPart(view, agent, todo)
        invariant closed ==> todo == index[agent].Keys
        decreases |todo|
      {
        var id :| id in todo;
        ghost var f := LiveRead(crc, State(), segs, c, agent, id);
        EmptyAreaReads(crc, index[agent][id] - DATA_START);
        var got := RecordData(crc, area, index[agent][id] - DATA_START);
        if !got.Ok? {
          return Some(id);
        }
        var rec := RecordEntry(agent, got.frame.rtype, id, got.frame.data);
        CopyStep(out.Log(), batch, rec, view, had, todo);
        batch := batch + [rec];
        if |batch| == CHUNK {
          out.Flush(batch);
          batch := [];
          NothingPending(out.Log());
        }
        todo := todo - {id};
      }
      out.Flush(batch);
      return None;
    }

    /**
     * Compact: a new file that holds one frame per live record and reads as the same map, whatever order the
     * domains and records are taken in. A closed engine has no mapping to copy from.
     */
    method Compact() returns (out: StorageEngine, unread: bool, ghost secs: seq<Section>)
      requires Valid()
      ensures fresh(out) && out.crc == crc
      ensures unread <==> closed && index != map[]
      ensures !unread ==>
                && Clean(out.Log()) && View(out.Log()) == View(Log())
                && out.disk.area == EncodeAll(crc, out.Log()) + BlobBytes(crc, secs)
                && out.nextOffset == DATA_START + LogSize(out.Log())
                && (SectionsFit(secs) && out.State().Active().Fits() ==>
                      out.Valid() && (NoAccident(crc, out.disk) ==> ReopensAs(crc, out.disk, View(Log()))))
    {
      hide Inv;
      hide InStep;
      hide View;
      hide Recs;
      hide Clean;
      hide EncodeAll;
      secs := [];
      out := new StorageEngine.Create(crc);
      PlainStart(crc);
      var agents := index.Keys;
      DomainsStart(crc, State(), segs, c);
      while agents != {}
        invariant agents <= index.Keys && fresh(out) && out.crc == crc
        invariant out.Plain() && Clean(out.Log()) && View(out.Log()) == DomainsPart(View(Log()), agents)
        invariant closed ==> agents == index.Keys
        decreases |agents|
      {
        var agent :| agent in agents;
        DomainsNext(View(Log()), agents, agent);
        var bad := CopyDomain(out, agent);
        if bad.Some? {
          return out, true, secs;
        }
        agents := agents - {agent};
      }
      unread := false;
      secs := out.Finish();
      hide ReopensAs;
      hide NoAccident;
      if SectionsFit(secs) && out.State().Active().Fits() && NoAccident(crc, out.disk) {
        CompactedReopens(crc, out.State(), out.segs, out.c);
      }
    }

    /** The last step of Compact: a checkpoint of the copy. */
    method Finish() returns (ghost secs: seq<Section>)
      requires Plain()
      modifies this
      ensures Log() == old(Log()) && disk.area == EncodeAll(crc, Log()) + BlobBytes(crc, secs)
      ensures nextOffset == DATA_START + LogSize(Log())
      ensures SectionsFit(secs) && State().Active().Fits() ==> Valid()
    {
      hide Inv;
      hide InStep;
      EncodedSize(crc, Log());
      var _, listed := Checkpoint();
      secs := listed;
      SealedArea(crc, old(State()), BlobBytes(crc, secs));
    }

    method AppendTombstones(frames: seq<byte>, ghost fs: seq<Frame>)
      requires frames == EncodeAll(crc, fs)
      modifies this`disk, this`steps, this`headerA, this`headerB, this`activeB, this`nextOffset
      ensures var t := AfterTrim(crc, old(State()));
              var d := DoAll(t.disk, FrameSteps(crc, fs));
              State() == t.(disk := d, nextOffset := DATA_START + |d.area|)
      ensures steps == old(steps) + (TrimSteps(crc, old(State())) + [Append(EncodeAll(crc, fs))])
    {
      hide AfterTrim;
      hide TrimSteps;
      hide EncodeAll;
      hide FrameSteps;
      hide DoAll;
      TrimTailSnapshot();
      OneWriteWhole(crc, disk, fs);
      Perform(Append(frames));
      nextOffset := DATA_START + |disk.area|;
    }
  }

  // ---- Compaction ----

  /** The file opens, to an engine in step with a log that reads as this map. */
  ghost predicate ReopensAs(crc: Checksum, d: Disk, view: Records)
  {
    && Durability.Open(crc, d).Some?
    && exists segs: seq<Segment>, c: nat ::
         Inv(crc, Durability.Open(crc, d).value.engine, segs, c) && View(Recs(segs)) == view
  }

  lemma {:induction false} CompactedReopens(crc: Checksum, e: Engine, segs: seq<Segment>, c: nat)
    requires Inv(crc, e, segs, c) && NoAccident(crc, e.disk)
    ensures ReopensAs(crc, e.disk, View(Recs(segs)))
  {
    hide Inv;
    hide NoAccident;
    hide View;
    hide Recs;
    var left, c' := ReopenKeepsLog(crc, e, segs, c);
  }

  const CHUNK: nat := 256

  /** The records of one domain, except those still to copy. */
  ghost function DomainPart(view: Records, agent: uint64, todo: set<uint64>): Records
  {
    map k | k in view && k.0 == agent && k.1 !in todo :: view[k]
  }

  /** The records of every domain but those still to copy. */
  ghost function DomainsPart(view: Records, agents: set<uint64>): Records
  {
    map k | k in view && k.0 !in agents :: view[k]
  }

  lemma {:induction false} DomainNext(view: Records, had: Records, agent: uint64, todo: set<uint64>, id: uint64)
    requires id in todo && (agent, id) in view && forall k :: k in had ==> k.0 != agent
    ensures var was := had + DomainPart(view, agent, todo);
            (agent, id) !in was && had + DomainPart(view, agent, todo - {id}) == was[(agent, id) := view[(agent, id)]]
  {
    forall k: (uint64, uint64)
      ensures k in DomainPart(view, agent, todo - {id}) <==> k in DomainPart(view, agent, todo) || k == (agent, id)
    {
      assert k == (k.0, k.1);
    }
  }

  lemma {:induction false} DomainsNext(view: Records, agents: set<uint64>, agent: uint64)
    requires agent in agents
    ensures forall k :: k in DomainsPart(view, agents) ==> k.0 != agent
    ensures DomainsPart(view, agents) + DomainPart(view, agent, {}) == DomainsPart(view, agents - {agent})
  {
  }

  lemma {:induction false} DomainStart(crc: Checksum, e: Engine, segs: seq<Segment>, c: nat, agent: uint64)
    requires Inv(crc, e, segs, c) && agent in e.index
    ensures e.index[agent].Keys != {} && DomainPart(View(Recs(segs)), agent, e.index[agent].Keys) == map[]
  {
    ReplayNoEmpty(segs);
    ReplayAgrees(crc, segs, [], |segs|);
    assert segs[..|segs|] == segs;
    hide Replay;
    hide View;
    hide Recs;
    forall k | k in View(Recs(segs))
      ensures Holds(e.index, k.0, k.1)
    {
      assert (k.0, k.1) in View(Recs(segs));
    }
  }

  lemma {:induction false} DomainsStart(crc: Checksum, e: Engine, segs: seq<Segment>, c: nat)
    requires Inv(crc, e, segs, c)
    ensures DomainsPart(View(Recs(segs)), e.index.Keys) == map[]
    ensures DomainsPart(View(Recs(segs)), {}) == View(Recs(segs))
  {
    ReplayAgrees(crc, segs, [], |segs|);
    assert segs[..|segs|] == segs;
    hide Replay;
    hide View;
    hide Recs;
    forall k | k in View(Recs(segs))
      ensures Holds(e.index, k.0, k.1)
    {
      assert (k.0, k.1) in View(Recs(segs));
    }
  }

  /** What a copy reads at a live offset: the record as the map has it, and a frame that may be written again. */
  lemma {:induction false} LiveRead(crc: Checksum, e: Engine, segs: seq<Segment>, c: nat, agent: uint64, id: uint64)
    returns (f: Frame)
    requires Inv(crc, e, segs, c) && Holds(e.index, agent, id)
    ensures e.index[agent][id] >= DATA_START
    ensures RecordData(crc, e.disk.area, e.index[agent][id] - DATA_START) == Ok(f)
    ensures (agent, id) in View(Recs(segs)) && View(Recs(segs))[(agent, id)] == Value(f.rtype, f.data)
    ensures |f.data| < 0x1_0000_0000 && f.rtype != 0
  {
    hide RecordData;
    hide View;
    hide Recs;
    OffsetsInside(crc, segs, agent, id);
    ReadsAnswerAsMap(crc, e, segs, c, agent, id);
    TypeOfLive(crc, segs, agent, id);
    hide Inv;
    hide Replay;
    hide AreaBytes;
    var off := e.index[agent][id];
    f := RecordData(crc, e.disk.area, off - DATA_START).frame;
    EncodeDecoded(crc, e.disk.area, off - DATA_START);
  }

  lemma {:induction false} NothingPending(log: seq<Frame>)
    ensures log + FramesOf([]) == log && Writable(FramesOf([]))
  {
  }

  /** One record more in the batch of a copy. */
  lemma {:induction false} CopyStep(log: seq<Frame>, batch: seq<RecordEntry>, rec: RecordEntry, view: Records, had: Records,
                                    todo: set<uint64>)
    requires Clean(log + FramesOf(batch)) && View(log + FramesOf(batch)) == had + DomainPart(view, rec.agent, todo)
    requires rec.id in todo && (rec.agent, rec.id) in view && view[(rec.agent, rec.id)] == Value(rec.rtype, rec.data)
    requires forall k :: k in had ==> k.0 != rec.agent
    requires Writable(FramesOf(batch)) && |rec.data| < 0x1_0000_0000 && rec.rtype != 0
    ensures var next := log + FramesOf(batch + [rec]);
            && Clean(next) && View(next) == had + DomainPart(view, rec.agent, todo - {rec.id})
            && Writable(FramesOf(batch + [rec]))
  {
    hide Clean;
    hide View;
    assert FramesOf(batch + [rec]) == FramesOf(batch) + [FrameOf(rec)];
    assert log + FramesOf(batch + [rec]) == (log + FramesOf(batch)) + [FrameOf(rec)];
    DomainNext(view, had, rec.agent, todo, rec.id);
    hide DomainPart;
    CleanSnoc(log + FramesOf(batch), FrameOf(rec));
  }

  lemma {:induction false} EmptyAreaReads(crc: Checksum, pos: nat)
    ensures !RecordData(crc, [], pos).Ok?
  {
  }

  lemma {:induction false} PlainStart(crc: Checksum)
    ensures EncodeAll(crc, []) == [] && Clean([]) && View([]) == map[]
  {
  }

  lemma {:induction false} PlainBatch(crc: Checksum, e: Engine, fs: seq<Frame>)
    requires e.Active() == NewFileHeader()
    ensures NullHeader(e.Active()).Fits()
    ensures var e' := AfterBatch(crc, e, fs);
            && e'.Active() == NewFileHeader() && e'.disk.area == e.disk.area + EncodeAll(crc, fs)
            && (fs != [] ==> e'.nextOffset == DATA_START + |e'.disk.area|)
            && (fs == [] ==> e' == e)
  {
    OneWriteWhole(crc, e.disk, fs);
    assert [] + FrameSteps(crc, fs) == FrameSteps(crc, fs);
    if fs == [] {
      assert e.disk.area + [] == e.disk.area;
    }
  }

  lemma {:induction false} SealedArea(crc: Checksum, e: Engine, blob: seq<byte>)
    ensures var e' := AfterCheckpoint(crc, e, blob);
            && e'.disk.area == e.disk.area + blob && e'.nextOffset == e.nextOffset
            && e'.Active() == CheckpointHeader(e, |blob|)
  {
    hide ToBytes;
    TwoSteps(e.disk, Append(blob), WriteSlot(!e.activeB, ToBytes(crc, CheckpointHeader(e, |blob|))));
  }

  lemma {:induction false} CheckpointValid(crc: Checksum, e: Engine, segs: seq<Segment>, c: nat, secs: seq<Section>, m: TypeIndex)
    requires Inv(crc, e, segs, c) && CheckpointRoom(crc, e, secs) && InStep(e.disk.area, e.index, m)
    ensures var s := Blob(secs, BlobBytes(crc, secs));
            var e' := AfterCheckpoint(crc, e, s.bytes);
            && Inv(crc, e', segs + [s], c) && Recs(segs + [s]) == Recs(segs)
            && e'.index == e.index && InStep(e'.disk.area, e.index, m)
  {
    CheckpointInv(crc, e, segs, c, secs);
    var blob := BlobBytes(crc, secs);
    hide BlobBytes;
    hide ToBytes;
    TwoSteps(e.disk, Append(blob), WriteSlot(!e.activeB, ToBytes(crc, CheckpointHeader(e, |blob|))));
    assert AreaBytes(segs) + [] == AreaBytes(segs);
    InStepGrown(crc, segs, [], blob, m);
    hide LoadHeaders;
    hide InStep;
    hide AllStrong;
  }

  lemma {:induction false} OpenRefused(crc: Checksum, d: Disk)
    ensures Durability.Open(crc, d).None? <==> LoadHeaders(crc, d.slotA, d.slotB).None?
  {
    hide LoadHeaders;
    hide Scan;
    hide RestoreFromSnapshot;
  }

  /** The type byte at a live offset is the type of that record in the map. */
  lemma {:induction false} TypeOfLive(crc: Checksum, segs: seq<Segment>, agent: uint64, id: uint64)
    requires AllOk(crc, segs)
    ensures Holds(Replay(segs), agent, id) <==> (agent, id) in View(Recs(segs))
    ensures (agent, id) in View(Recs(segs)) ==>
              TypeAt(AreaBytes(segs), Replay(segs)[agent][id]) == Some(View(Recs(segs))[(agent, id)].rtype)
  {
    ReplayAgrees(crc, segs, [], |segs|);
    assert segs[..|segs|] == segs && AreaBytes(segs) + [] == AreaBytes(segs);
    hide View;
    hide Recs;
    hide Replay;
    hide AreaBytes;
    hide RecordData;
    hide TypeAt;
    if (agent, id) in View(Recs(segs)) {
      assert PointsAt(crc, AreaBytes(segs), Replay(segs), View(Recs(segs)), agent, id);
      TypeByte(crc, AreaBytes(segs), Replay(segs)[agent][id]);
    }
  }

  lemma {:induction false} TypeByte(crc: Checksum, area: seq<byte>, off: nat)
    requires off >= DATA_START && RecordData(crc, area, off - DATA_START).Ok?
    ensures TypeAt(area, off) == Some(RecordData(crc, area, off - DATA_START).frame.rtype)
  {
  }

  /** totalRecordsLocked: the domain sizes added up. */
  method TotalRecordsLocked(idx: Index) returns (total: nat)
    ensures total == TotalRecords(idx)
  {
    total := 0;
    var agents := idx.Keys;
    assert idx - agents == map[];
    assert LiveKeys(map[]) == {};
    while agents != {}
      invariant agents <= idx.Keys
      invariant total == TotalRecords(idx - agents)
      decreases |agents|
    {
      var agent :| agent in agents;
      DomainAdds(idx - agents, agent, idx[agent]);
      assert (idx - agents)[agent := idx[agent]] == idx - (agents - {agent});
      total := total + |idx[agent]|;
      agents := agents - {agent};
    }
    assert idx - {} == idx;
  }

  lemma {:induction false} DomainAdds(idx: Index, agent: uint64, ids: map<uint64, nat>)
    requires agent !in idx
    ensures TotalRecords(idx[agent := ids]) == TotalRecords(idx) + |ids|
  {
    hide LiveKeys;
    hide Pairs;
    var more: Index := idx[agent := ids];
    var was, added, all := LiveKeys(idx), Pairs(agent, ids.Keys), LiveKeys(more);
    forall k
      ensures k in all <==> k in was || k in added
      ensures !(k in was && k in added)
    {
      InKeys(idx, k);
      InKeys(more, k);
      InPairs(agent, ids.Keys, k);
    }
    PairsCount(agent, ids.Keys);
    Disjoint(all, was, added);
  }

  lemma {:induction false} Disjoint<T>(all: set<T>, a: set<T>, b: set<T>)
    requires forall k :: k in all <==> k in a || k in b
    requires forall k :: !(k in a && k in b)
    ensures |all| == |a| + |b|
  {
    assert all == a + b && a !! b;
  }

  lemma {:induction false} InKeys(idx: Index, k: (uint64, uint64))
    ensures k in LiveKeys(idx) <==> Holds(idx, k.0, k.1)
  {
    assert k == (k.0, k.1);
  }

  lemma {:induction false} InPairs(agent: uint64, ids: set<uint64>, k: (uint64, uint64))
    ensures k in Pairs(agent, ids) <==> k.0 == agent && k.1 in ids
  {
    assert k == (k.0, k.1);
  }

  ghost function Pairs(agent: uint64, ids: set<uint64>): set<(uint64, uint64)>
  {
    set i | i in ids :: (agent, i)
  }

  lemma {:induction false} PairsCount(agent: uint64, ids: set<uint64>)
    ensures |Pairs(agent, ids)| == |ids|
    decreases |ids|
  {
    if ids == {} {
      assert Pairs(agent, ids) == {};
    } else {
      var id :| id in ids;
      PairsCount(agent, ids - {id});
      assert Pairs(agent, ids) == Pairs(agent, ids - {id}) + {(agent, id)};
    }
  }

  lemma {:induction false} WritePlan(crc: Checksum, e: Engine, segs: seq<Segment>, c: nat, rs: seq<RecordEntry>, m: TypeIndex)
    returns (left: seq<Segment>)
    requires Inv(crc, e, segs, c) && NullHeader(e.Active()).Fits() && InStep(e.disk.area, e.index, m)
    requires rs != [] && Writable(FramesOf(rs))
    ensures var fs, t := FramesOf(rs), AfterTrim(crc, e);
            var d, more := DoAll(t.disk, FrameSteps(crc, fs)), FrameSegs(crc, fs);
            && AllOk(crc, left + more) && d.area == AreaBytes(left + more)
            && t.index == Replay(left) && InStep(d.area, t.index, m)
            && (forall i :: 0 <= i < |rs| ==>
                  |DoAll(t.disk, FrameSteps(crc, fs)[..i]).area| == |AreaBytes(left + more[..i])|)
            && AfterBatch(crc, e, fs) == t.(disk := d, index := Replay(left + more), nextOffset := DATA_START + |d.area|)
            && Inv(crc, AfterBatch(crc, e, fs), left + more, |left + more|) && Recs(left + more) == Recs(segs) + fs
            && BatchSteps(crc, e, fs) == TrimSteps(crc, e) + FrameSteps(crc, fs)
  {
    hide Inv;
    hide InStep;
    hide AfterTrim;
    hide TrimSteps;
    hide FrameSteps;
    hide AfterBatch;
    hide BatchSteps;
    hide DoAll;
    hide Replay;
    hide Recs;
    hide AreaBytes;
    hide AllOk;
    left := TrimmedInv(crc, e, segs, c);
    BatchReady(crc, e, segs, c, AfterTrim(crc, e), left, rs, m);
    BatchDone(crc, e, AfterTrim(crc, e), left, FramesOf(rs));
  }

  /** What a delete needs of the batch it appends: where the frames go, and that applying it is replaying them. */
  lemma {:induction false} DeletePlan(crc: Checksum, e: Engine, segs: seq<Segment>, c: nat, agent: uint64,
                                      ids: seq<uint64>, m: TypeIndex, live: map<uint64, nat>)
    returns (left: seq<Segment>)
    requires Inv(crc, e, segs, c) && NullHeader(e.Active()).Fits() && InStep(e.disk.area, e.index, m)
    requires forall id :: id in live <==> id in ids && Holds(e.index, agent, id)
    requires forall id :: id in live ==> Holds(e.index, agent, id) && live[id] == e.index[agent][id]
    requires Tombstones(e.disk.area, e.index, agent, ids) != []
    ensures var fs, t := Tombstones(e.disk.area, e.index, agent, ids), AfterTrim(crc, e);
            var d, next := DoAll(t.disk, FrameSteps(crc, fs)), left + FrameSegs(crc, fs);
            && live.Keys != {} && t.index == e.index && InStep(d.area, e.index, m)
            && (forall id :: id in live ==> TypeAt(d.area, live[id]).Some?)
            && AfterBatch(crc, e, fs) == t.(disk := d, index := RemoveIds(e.index, agent, live.Keys),
                                            nextOffset := DATA_START + |d.area|)
            && Inv(crc, AfterBatch(crc, e, fs), next, |next|) && Recs(next) == Recs(segs) + fs
  {
    hide Inv;
    hide InStep;
    hide AfterTrim;
    hide TrimSteps;
    hide FrameSteps;
    hide AfterBatch;
    hide BatchSteps;
    hide DoAll;
    hide Replay;
    hide Recs;
    hide AreaBytes;
    hide AllOk;
    hide EncodeAll;
    hide RemoveIds;
    hide Tombstones;
    hide TypeAt;
    var fs, t := Tombstones(e.disk.area, e.index, agent, ids), AfterTrim(crc, e);
    TombstoneFacts(crc, e, segs, c, agent, ids, live);
    left := TrimmedInv(crc, e, segs, c);
    DeleteReady(crc, e, segs, c, t, left, fs, m, live);
    BatchDone(crc, e, t, left, fs);
    DeletedIndex(crc, t, left, agent, fs, live);
  }

  lemma {:induction false} BatchDone(crc: Checksum, e: Engine, t: Engine, left: seq<Segment>, fs: seq<Frame>)
    requires fs != [] && Writable(fs) && t == AfterTrim(crc, e) && t.disk == DoAll(e.disk, TrimSteps(crc, e))
    requires Inv(crc, t, left, |left|) && t.Active().snapOff == 0
    ensures var segs, d := left + FrameSegs(crc, fs), DoAll(t.disk, FrameSteps(crc, fs));
            && AfterBatch(crc, e, fs) == t.(disk := d, index := Replay(segs), nextOffset := DATA_START + |d.area|)
            && Inv(crc, AfterBatch(crc, e, fs), segs, |segs|) && Recs(segs) == Recs(left) + fs
    ensures BatchSteps(crc, e, fs) == TrimSteps(crc, e) + FrameSteps(crc, fs)
  {
    MergedIsReplay(crc, left, fs);
    AppendInv(crc, t, left, fs);
    BatchDisk(crc, e, fs);
    RecsSplit(left, FrameSegs(crc, fs));
    RecsOfFrames(crc, fs, |fs|);
    assert FrameSegs(crc, fs)[..|fs|] == FrameSegs(crc, fs) && fs[..|fs|] == fs;
    assert t.index == Replay(left) && t.disk.area == AreaBytes(left);
    hide Inv;
    hide DoAll;
    hide Replay;
    hide Recs;
    hide AreaBytes;
    hide MergeAll;
    hide TrimSteps;
    hide AfterTrim;
  }

  lemma {:induction false} TypeOfWritten(crc: Checksum, left: seq<Segment>, rs: seq<RecordEntry>, i: nat)
    requires i < |rs|
    ensures var more := FrameSegs(crc, FramesOf(rs));
            TypeAt(AreaBytes(left + more), DATA_START + |AreaBytes(left + more[..i])|) == Some(rs[i].rtype)
  {
    var more := FrameSegs(crc, FramesOf(rs));
    var all := left + more;
    assert all[..|left| + i] == left + more[..i] && all[|left| + i] == more[i];
    SegmentAtClean(all, |left| + i);
    var p, b := Pos(all, |left| + i), more[i].bytes;
    assert b[0] == Head(FrameOf(rs[i]))[0] == rs[i].rtype;
    assert AreaBytes(all)[p] == AreaBytes(all)[p..p + |b|][0];
  }

  /** What holds between the append of a batch and its indexing. */
  lemma {:induction false} BatchReady(crc: Checksum, e: Engine, segs: seq<Segment>, c: nat, t: Engine, left: seq<Segment>,
                                      rs: seq<RecordEntry>, m: TypeIndex)
    requires Inv(crc, e, segs, c) && InStep(e.disk.area, e.index, m) && Writable(FramesOf(rs))
    requires t == AfterTrim(crc, e) && Inv(crc, t, left, |left|)
    requires |left| <= |segs| && left == segs[..|left|] && BlobRange(segs, |left|, |segs|)
    ensures var fs, more := FramesOf(rs), FrameSegs(crc, FramesOf(rs));
            var d := DoAll(t.disk, FrameSteps(crc, fs));
            && AllOk(crc, left + more) && d.area == AreaBytes(left + more)
            && t.index == Replay(left) && InStep(d.area, t.index, m)
            && forall i :: 0 <= i < |rs| ==>
                 |DoAll(t.disk, FrameSteps(crc, fs)[..i]).area| == |AreaBytes(left + more[..i])|
  {
    hide InStep;
    hide LoadHeaders;
    hide AllOk;
    hide Encode;
    var fs, more := FramesOf(rs), FrameSegs(crc, FramesOf(rs));
    assert more[..|fs|] == more && FrameSteps(crc, fs)[..|fs|] == FrameSteps(crc, fs);
    AllOkAppend(crc, left, fs, |fs|);
    AppendedArea(crc, t.disk, left, fs, |fs|);
    forall i | 0 <= i < |rs|
      ensures |DoAll(t.disk, FrameSteps(crc, fs)[..i]).area| == |AreaBytes(left + more[..i])|
    {
      AppendedArea(crc, t.disk, left, fs, i);
    }
    ReplayRange(segs, |left|, |segs|);
    assert segs[..|segs|] == segs && segs == left + segs[|left|..];
    AreaSplit(left, segs[|left|..]);
    AreaSplit(left, more);
    InStepGrown(crc, left, AreaBytes(segs[|left|..]), AreaBytes(more), m);
  }

  /** The last frame ends where the file does. */
  lemma {:induction false} LastOffset(crc: Checksum, d: Disk, fs: seq<Frame>)
    requires fs != []
    ensures var n := |fs| - 1;
            |DoAll(d, FrameSteps(crc, fs)).area| == |DoAll(d, FrameSteps(crc, fs)[..n]).area| + fs[n].Size()
  {
    hide Encode;
    var steps, n := FrameSteps(crc, fs), |fs| - 1;
    assert steps == steps[..n] + [steps[n]];
    DoAllSplit(d, steps[..n], [steps[n]]);
    OneStep(DoAll(d, steps[..n]), steps[n]);
  }

  // ---- Tombstones ----

  function Tombstones(area: seq<byte>, idx: Index, agent: uint64, ids: seq<uint64>): seq<Frame>
  {
    if ids == [] then []
    else
      var front, id := Tombstones(area, idx, agent, ids[..|ids| - 1]), ids[|ids| - 1];
      if Holds(idx, agent, id)
      then
        var rt := TypeAt(area, idx[agent][id]);
        front + [Tombstone(agent, if rt.Some? then rt.value else 0, id)]
      else front
  }

  lemma {:induction false} TombstonesSnoc(area: seq<byte>, idx: Index, agent: uint64, ids: seq<uint64>, id: uint64)
    ensures Tombstones(area, idx, agent, ids + [id]) ==
            if Holds(idx, agent, id)
            then
              var rt := TypeAt(area, idx[agent][id]);
              Tombstones(area, idx, agent, ids) + [Tombstone(agent, if rt.Some? then rt.value else 0, id)]
            else Tombstones(area, idx, agent, ids)
  {
    assert (ids + [id])[..|ids|] == ids;
  }

  lemma {:induction false} EncodeAllSnoc(crc: Checksum, fs: seq<Frame>, f: Frame)
    ensures EncodeAll(crc, fs + [f]) == EncodeAll(crc, fs) + Encode(crc, f)
  {
    hide Encode;
    if fs == [] {
      assert fs + [f] == [f] && [f][1..] == [];
    } else {
      EncodeAllSnoc(crc, fs[1..], f);
      assert (fs + [f])[1..] == fs[1..] + [f];
    }
  }

  /** Which ids the tombstones name, and that each is a writable frame. */
  lemma {:induction false} TombstoneIds(area: seq<byte>, idx: Index, agent: uint64, ids: seq<uint64>)
    ensures forall f :: f in Tombstones(area, idx, agent, ids) ==>
              f.Deleted() && f.agent == agent && f.Fits() && f.id in ids && Holds(idx, agent, f.id) &&
              (TypeAt(area, idx[agent][f.id]).Some? ==> f.rtype == TypeAt(area, idx[agent][f.id]).value)
    ensures forall id :: id in ids && Holds(idx, agent, id) ==>
              exists f :: f in Tombstones(area, idx, agent, ids) && f.id == id
  {
    if ids != [] {
      var front, id := ids[..|ids| - 1], ids[|ids| - 1];
      TombstoneIds(area, idx, agent, front);
      var was, all := Tombstones(area, idx, agent, front), Tombstones(area, idx, agent, ids);
      forall f | f in was
        ensures f in all
      {
      }
      assert ids == front + [id];
      if Holds(idx, agent, id) {
        assert all[|all| - 1].id == id && all[|all| - 1] in all;
      }
    }
  }

  ghost function WithoutIds(view: Records, agent: uint64, ids: seq<uint64>): Records
  {
    map k | k in view && !(k.0 == agent && k.1 in ids) :: view[k]
  }

  lemma {:induction false} WithoutOneMore(view: Records, agent: uint64, ids: seq<uint64>, id: uint64)
    ensures WithoutIds(view, agent, ids + [id]) == WithoutIds(view, agent, ids) - {(agent, id)}
  {
    forall k: (uint64, uint64)
      ensures k in WithoutIds(view, agent, ids + [id]) <==> k in WithoutIds(view, agent, ids) && k != (agent, id)
    {
      assert k == (k.0, k.1);
    }
  }

  lemma {:induction false} TombstonesView(log: seq<Frame>, area: seq<byte>, idx: Index, agent: uint64, ids: seq<uint64>)
    requires forall id: uint64 :: Holds(idx, agent, id) <==> (agent, id) in View(log)
    ensures View(log + Tombstones(area, idx, agent, ids)) == WithoutIds(View(log), agent, ids)
    decreases ids
  {
    hide View;
    if ids == [] {
      assert log + [] == log;
      assert WithoutIds(View(log), agent, ids) == View(log);
    } else {
      var front, id := ids[..|ids| - 1], ids[|ids| - 1];
      TombstonesView(log, area, idx, agent, front);
      assert ids == front + [id];
      TombstonesSnoc(area, idx, agent, front, id);
      WithoutOneMore(View(log), agent, front, id);
      assert Holds(idx, agent, id) <==> (agent, id) in View(log);
      assert (agent, id) in WithoutIds(View(log), agent, front) ==> (agent, id) in View(log);
      hide Tombstones;
      hide WithoutIds;
      hide TypeAt;
      if Holds(idx, agent, id) {
        OneTombstone(log, Tombstones(area, idx, agent, front), agent, TypeAt(area, idx[agent][id]), id);
      }
    }
  }

  lemma {:induction false} OneTombstone(log: seq<Frame>, was: seq<Frame>, agent: uint64, rt: Option<byte>, id: uint64)
    ensures View(log + (was + [Tombstone(agent, if rt.Some? then rt.value else 0, id)])) == View(log + was) - {(agent, id)}
  {
    var f := Tombstone(agent, if rt.Some? then rt.value else 0, id);
    assert log + (was + [f]) == (log + was) + [f];
    hide View;
    ViewSnoc(log + was, f);
  }

  /** A delete batch is, on the map, the removal of the listed ids of that domain: live, absent or listed twice. */
  lemma {:induction false} DeletesAreRemovals(crc: Checksum, e: Engine, segs: seq<Segment>, c: nat, agent: uint64, ids: seq<uint64>)
    requires Inv(crc, e, segs, c)
    ensures View(Recs(segs) + Tombstones(e.disk.area, e.index, agent, ids)) == WithoutIds(View(Recs(segs)), agent, ids)
  {
    hide Recs;
    hide View;
    forall id: uint64
      ensures Holds(e.index, agent, id) <==> (agent, id) in View(Recs(segs))
    {
      TypeOfLive(crc, segs, agent, id);
    }
    TombstonesView(Recs(segs), e.disk.area, e.index, agent, ids);
  }

  lemma {:induction false} TombstoneFacts(crc: Checksum, e: Engine, segs: seq<Segment>, c: nat, agent: uint64,
                                          ids: seq<uint64>, live: map<uint64, nat>)
    requires Inv(crc, e, segs, c)
    requires forall id :: id in live <==> id in ids && Holds(e.index, agent, id)
    ensures var fs := Tombstones(e.disk.area, e.index, agent, ids);
            && Writable(fs) && (forall f :: f in fs ==> f.Deleted() && f.agent == agent)
            && (set f | f in fs :: f.id) == live.Keys && (fs != [] ==> live.Keys != {})
  {
    var fs := Tombstones(e.disk.area, e.index, agent, ids);
    TombstoneIds(e.disk.area, e.index, agent, ids);
    forall f | f in fs
      ensures f.rtype != 0
    {
      OffsetsInside(crc, segs, agent, f.id);
    }
    forall id | id in live
      ensures id in (set f | f in fs :: f.id)
    {
      var f :| f in fs && f.id == id;
    }
    if fs != [] {
      assert fs[0] in fs && fs[0].id in live.Keys;
    }
  }

  lemma {:induction false} DeleteReady(crc: Checksum, e: Engine, segs: seq<Segment>, c: nat, t: Engine, left: seq<Segment>,
                                       fs: seq<Frame>, m: TypeIndex, live: map<uint64, nat>)
    requires Inv(crc, e, segs, c) && InStep(e.disk.area, e.index, m)
    requires t == AfterTrim(crc, e) && Inv(crc, t, left, |left|)
    requires |left| <= |segs| && left == segs[..|left|] && BlobRange(segs, |left|, |segs|)
    ensures var d := DoAll(t.disk, FrameSteps(crc, fs));
            && t.index == e.index && InStep(d.area, t.index, m)
            && forall a: uint64, i: uint64 :: Holds(t.index, a, i) ==> TypeAt(d.area, t.index[a][i]).Some?
  {
    hide InStep;
    hide LoadHeaders;
    hide AllOk;
    hide Encode;
    var more := FrameSegs(crc, fs);
    assert more[..|fs|] == more && FrameSteps(crc, fs)[..|fs|] == FrameSteps(crc, fs);
    AppendedArea(crc, t.disk, left, fs, |fs|);
    ReplayRange(segs, |left|, |segs|);
    assert segs[..|segs|] == segs && segs == left + segs[|left|..];
    AreaSplit(left, segs[|left|..]);
    AreaSplit(left, more);
    InStepGrown(crc, left, AreaBytes(segs[|left|..]), AreaBytes(more), m);
    forall a: uint64, i: uint64 | Holds(t.index, a, i)
      ensures TypeAt(AreaBytes(left) + AreaBytes(more), t.index[a][i]).Some?
    {
      OffsetsInside(crc, left, a, i);
    }
  }

  lemma {:induction false} DeletedIndex(crc: Checksum, t: Engine, left: seq<Segment>, agent: uint64, fs: seq<Frame>,
                                        live: map<uint64, nat>)
    requires Inv(crc, t, left, |left|)
    requires forall f :: f in fs ==> f.Deleted() && f.agent == agent
    requires (set f | f in fs :: f.id) == live.Keys
    ensures Replay(left + FrameSegs(crc, fs)) == RemoveIds(t.index, agent, live.Keys)
  {
    MergedIsReplay(crc, left, fs);
    ReplayNoEmpty(left);
    TombstonesRemove(t.index, agent, fs, DATA_START + |AreaBytes(left)|);
  }
}
