// The record area as a layout of frames and snapshot blobs, and the scan that recovers the index
// from it: internal/repo/core/engine_recovery.go.
module Recovery {
  import opened Common
  import opened Bytes
  import opened Frames
  import opened Snapshots
  import opened Headers

  // ---- The primary index ----

  function Put(idx: Index, agent: uint64, id: uint64, offset: nat): Index
  {
    idx[agent := (if agent in idx then idx[agent] else map[])[id := offset]]
  }

  /** Removes one id and prunes the domain it was the last record of. */
  function Drop(idx: Index, agent: uint64, id: uint64): Index
  {
    if agent !in idx then idx
    else
      var m := idx[agent] - {id};
      if m == map[] then idx - {agent} else idx[agent := m]
  }

  predicate Holds(idx: Index, agent: uint64, id: uint64) { agent in idx && id in idx[agent] }

  function Merge(idx: Index, f: Frame, offset: nat): Index
  {
    if f.Deleted() then Drop(idx, f.agent, f.id) else Put(idx, f.agent, f.id, offset)
  }

  // ---- Layout ----

  /** A whole write in the record area together with the bytes it put there. */
  datatype Segment = Rec(frame: Frame, bytes: seq<byte>) | Blob(secs: seq<Section>, bytes: seq<byte>)
  {
    /** The bytes are the encoding; a written record type is never zero, so no frame looks like unwritten space. */
    predicate Ok(crc: Checksum) {
      match this
      case Rec(f, b) => f.Fits() && f.rtype != 0 && b == Encode(crc, f)
      case Blob(secs, b) => SectionsFit(secs) && b == BlobBytes(crc, secs)
    }
  }

  function RecOf(crc: Checksum, f: Frame): Segment { Rec(f, Encode(crc, f)) }

  function AreaBytes(segs: seq<Segment>): seq<byte>
  {
    if segs == [] then [] else AreaBytes(segs[..|segs| - 1]) + segs[|segs| - 1].bytes
  }

  predicate AllOk(crc: Checksum, segs: seq<Segment>) { forall s :: s in segs ==> s.Ok(crc) }

  predicate NonEmpty(segs: seq<Segment>) { forall s :: s in segs ==> |s.bytes| > 0 }

  predicate OnlyBlobs(segs: seq<Segment>) { forall s :: s in segs ==> s.Blob? }

  predicate BlobRange(segs: seq<Segment>, i: nat, j: nat)
    requires j <= |segs|
  {
    forall k :: i <= k < j ==> segs[k].Blob?
  }

  /** Where segment i starts, relative to the record area. */
  function Pos(segs: seq<Segment>, i: nat): nat
    requires i <= |segs|
  {
    |AreaBytes(segs[..i])|
  }

  /** The last-writer-wins replay of a layout: tombstones delete, blobs mean nothing. */
  function Replay(segs: seq<Segment>): Index
  {
    if segs == [] then map[]
    else
      var front := segs[..|segs| - 1];
      match segs[|segs| - 1]
      case Blob(_, _) => Replay(front)
      case Rec(f, _) => Merge(Replay(front), f, DATA_START + |AreaBytes(front)|)
  }

  /** The frames of a layout, in order. */
  function Recs(segs: seq<Segment>): seq<Frame>
  {
    if segs == [] then []
    else
      var front := Recs(segs[..|segs| - 1]);
      match segs[|segs| - 1]
      case Blob(_, _) => front
      case Rec(f, _) => front + [f]
  }

  /** One past the last frame: everything from here on is blobs. */
  function RecEnd(segs: seq<Segment>): (k: nat)
    ensures k <= |segs|
  {
    if segs == [] then 0
    else if segs[|segs| - 1].Rec? then |segs|
    else RecEnd(segs[..|segs| - 1])
  }

  /** What a write cut short leaves behind the last whole segment: nothing, or part of one. */
  ghost predicate Torn(crc: Checksum, tail: seq<byte>)
  {
    tail == [] || exists s: Segment :: s.Ok(crc) && |tail| < |s.bytes| && tail == s.bytes[..|tail|]
  }

  /**
   * The checksum hypothesis: no offset inside a snapshot blob or a torn tail reads as a frame. A frame
   * cut short needs no such luck at its first byte (Frames.TornFrame), and whole frames need none at all.
   */
  ghost predicate Silent(crc: Checksum, area: seq<byte>, segs: seq<Segment>)
  {
    && (forall i, p :: 0 <= i < |segs| && segs[i].Blob? && Pos(segs, i) <= p < Pos(segs, i + 1) ==>
          !DecodesAt(crc, area, p))
    && (forall p :: |AreaBytes(segs)| <= p < |area| ==> !DecodesAt(crc, area, p))
  }

  // ---- Facts about layouts ----

  lemma {:induction false} AreaSnoc(segs: seq<Segment>, s: Segment)
    ensures AreaBytes(segs + [s]) == AreaBytes(segs) + s.bytes
  {
    assert (segs + [s])[..|segs|] == segs;
  }

  lemma {:induction false} AreaSplit(a: seq<Segment>, b: seq<Segment>)
    ensures AreaBytes(a + b) == AreaBytes(a) + AreaBytes(b)
    decreases |b|
  {
    if b == [] {
      assert a + b == a;
    } else {
      var front, last := b[..|b| - 1], b[|b| - 1];
      AreaSplit(a, front);
      assert a + b == (a + front) + [last] && b == front + [last];
      AreaSnoc(a + front, last);
      AreaSnoc(front, last);
    }
  }

  lemma {:induction false} PosStep(segs: seq<Segment>, i: nat)
    requires i < |segs|
    ensures Pos(segs, i + 1) == Pos(segs, i) + |segs[i].bytes|
    ensures Replay(segs[..i + 1]) ==
            match segs[i]
            case Blob(_, _) => Replay(segs[..i])
            case Rec(f, _) => Merge(Replay(segs[..i]), f, DATA_START + Pos(segs, i))
  {
    assert segs[..i + 1][..i] == segs[..i];
  }

  lemma {:induction false} PosMonotone(segs: seq<Segment>, i: nat, j: nat)
    requires i <= j <= |segs|
    ensures Pos(segs, i) <= Pos(segs, j)
    ensures i < j && NonEmpty(segs) ==> Pos(segs, i) < Pos(segs, j)
    decreases j
  {
    if i < j {
      PosMonotone(segs, i, j - 1);
      PosStep(segs, j - 1);
    }
  }

  /** Segment i sits at its position in any area that begins with the layout. */
  lemma {:induction false} SegmentAt(segs: seq<Segment>, tail: seq<byte>, i: nat)
    requires i < |segs|
    ensures var area := AreaBytes(segs) + tail;
            var p := Pos(segs, i);
            p + |segs[i].bytes| <= |AreaBytes(segs)| &&
            area[p..p + |segs[i].bytes|] == segs[i].bytes
  {
    var p, s := Pos(segs, i), segs[i].bytes;
    assert segs == segs[..i + 1] + segs[i + 1..];
    AreaSplit(segs[..i + 1], segs[i + 1..]);
    assert segs[..i + 1][..i] == segs[..i];
    assert AreaBytes(segs[..i + 1]) == AreaBytes(segs[..i]) + s;
  }

  lemma {:induction false} SegmentAtClean(segs: seq<Segment>, i: nat)
    requires i < |segs|
    ensures var area, p := AreaBytes(segs), Pos(segs, i);
            p + |segs[i].bytes| <= |area| && area[p..p + |segs[i].bytes|] == segs[i].bytes
  {
    SegmentAt(segs, [], i);
    assert AreaBytes(segs) + [] == AreaBytes(segs);
  }

  lemma {:induction false} PosEnd(segs: seq<Segment>)
    ensures Pos(segs, |segs|) == |AreaBytes(segs)|
  {
    assert segs[..|segs|] == segs;
  }

  lemma {:induction false} RecEndFacts(segs: seq<Segment>)
    ensures BlobRange(segs, RecEnd(segs), |segs|)
    ensures RecEnd(segs) > 0 ==> segs[RecEnd(segs) - 1].Rec?
  {
    if segs != [] && !segs[|segs| - 1].Rec? {
      RecEndFacts(segs[..|segs| - 1]);
    }
  }

  lemma {:induction false} ReplaySnoc(segs: seq<Segment>, s: Segment)
    ensures Replay(segs + [s]) ==
            match s
            case Blob(_, _) => Replay(segs)
            case Rec(f, _) => Merge(Replay(segs), f, DATA_START + |AreaBytes(segs)|)
    ensures Recs(segs + [s]) == if s.Rec? then Recs(segs) + [s.frame] else Recs(segs)
  {
    assert (segs + [s])[..|segs|] == segs;
  }

  lemma {:induction false} ReplayBlobs(segs: seq<Segment>, blobs: seq<Segment>)
    requires OnlyBlobs(blobs)
    ensures Replay(segs + blobs) == Replay(segs)
    ensures Recs(segs + blobs) == Recs(segs)
    decreases |blobs|
  {
    if blobs == [] {
      assert segs + blobs == segs;
    } else {
      var front, last := blobs[..|blobs| - 1], blobs[|blobs| - 1];
      assert last in blobs;
      assert segs + blobs == (segs + front) + [last];
      ReplaySnoc(segs + front, last);
      ReplayBlobs(segs, front);
    }
  }

  lemma {:induction false} ReplayRange(segs: seq<Segment>, i: nat, j: nat)
    requires i <= j <= |segs| && BlobRange(segs, i, j)
    ensures Replay(segs[..j]) == Replay(segs[..i]) && Recs(segs[..j]) == Recs(segs[..i])
  {
    assert segs[..j] == segs[..i] + segs[i..j];
    ReplayBlobs(segs[..i], segs[i..j]);
  }

  lemma {:induction false} RecsSplit(a: seq<Segment>, b: seq<Segment>)
    ensures Recs(a + b) == Recs(a) + Recs(b)
    decreases |b|
  {
    if b == [] {
      assert a + b == a;
    } else {
      var front, last := b[..|b| - 1], b[|b| - 1];
      RecsSplit(a, front);
      assert a + b == (a + front) + [last];
      ReplaySnoc(a + front, last);
    }
  }

  /** The first byte of any segment, and so of any torn tail, is not zero. */
  lemma {:induction false} FirstByte(crc: Checksum, s: Segment)
    requires s.Ok(crc)
    ensures |s.bytes| > 0 && s.bytes[0] != 0
  {
    match s
    case Rec(f, _) => assert Encode(crc, f)[0] == Head(f)[0];
    case Blob(secs, _) => BlobFirstByte(crc, secs);
  }

  lemma {:induction false} OkNonEmpty(crc: Checksum, segs: seq<Segment>)
    requires AllOk(crc, segs)
    ensures NonEmpty(segs)
  {
    forall s | s in segs
      ensures |s.bytes| > 0
    {
      FirstByte(crc, s);
    }
  }

  // ---- Scanning ----

  function Resync(crc: Checksum, area: seq<byte>, from: nat): Option<nat>
    decreases |area| - from
  {
    if from >= |area| then None
    else if DecodesAt(crc, area, from) then Some(from)
    else Resync(crc, area, from + 1)
  }

  method ResyncScan(crc: Checksum, area: seq<byte>, from: nat) returns (r: Option<nat>)
    ensures r == Resync(crc, area, from)
    ensures r.Some? ==> from <= r.value < |area| && DecodesAt(crc, area, r.value)
    ensures forall p :: from <= p < (if r.Some? then r.value else |area|) ==> !DecodesAt(crc, area, p)
  {
    var off := from;
    while off < |area|
      invariant from <= off
      invariant Resync(crc, area, from) == Resync(crc, area, off)
      invariant forall p :: from <= p < off ==> !DecodesAt(crc, area, p)
    {
      if RecordData(crc, area, off).Ok? {
        return Some(off);
      }
      off := off + 1;
    }
    return None;
  }

  lemma {:induction false} ResyncFinds(crc: Checksum, area: seq<byte>, from: nat, to: nat)
    requires from <= to
    requires forall p :: from <= p < to ==> !DecodesAt(crc, area, p)
    requires to >= |area| || DecodesAt(crc, area, to)
    ensures Resync(crc, area, from) == (if to >= |area| then None else Some(to))
    decreases |area| - from
  {
    if from < to && from < |area| {
      ResyncFinds(crc, area, from + 1, to);
    }
  }

  /** end is relative to the record area; truncate says the caller cuts the file there. */
  datatype Scanned = Scanned(index: Index, end: nat, truncate: bool)

  /** cursorInSnapshotArea: the offset is one the active header's snapshot pointer covers. */
  predicate InSnapshotArea(snapOff: nat, pos: nat) { snapOff != 0 && DATA_START + pos >= snapOff }

  function Scan(crc: Checksum, area: seq<byte>, pos: nat, idx: Index, snapOff: nat): Scanned
    decreases |area| - pos
  {
    match RecordData(crc, area, pos)
    case Ok(f) =>
      EncodeDecoded(crc, area, pos);
      Scan(crc, area, pos + f.Size(), Merge(idx, f, DATA_START + pos), snapOff)
    case Eof => Scanned(idx, pos, false)
    case _ =>
      if InSnapshotArea(snapOff, pos) then Scanned(idx, pos, true)
      else
        ResyncBound(crc, area, pos + 1);
        match Resync(crc, area, pos + 1)
        case None => Scanned(idx, pos, true)
        case Some(next) => Scan(crc, area, next, idx, snapOff)
  }

  lemma {:induction false} ResyncBound(crc: Checksum, area: seq<byte>, from: nat)
    ensures Resync(crc, area, from).Some? ==> from <= Resync(crc, area, from).value < |area|
    decreases |area| - from
  {
    if from < |area| {
      ResyncBound(crc, area, from + 1);
    }
  }

  /** scanRecords as it runs: one cursor, one index updated in place. */
  method ScanRecords(crc: Checksum, area: seq<byte>, start: nat, idx0: Index, snapOff: nat) returns (r: Scanned)
    ensures r == Scan(crc, area, start, idx0, snapOff)
  {
    var pos, idx := start, idx0;
    while true
      invariant Scan(crc, area, start, idx0, snapOff) == Scan(crc, area, pos, idx, snapOff)
      decreases |area| - pos
    {
      match RecordData(crc, area, pos) {
        case Ok(f) =>
          EncodeDecoded(crc, area, pos);
          if f.Deleted() {
            idx := Drop(idx, f.agent, f.id);
          } else {
            idx := Put(idx, f.agent, f.id, DATA_START + pos);
          }
          pos := pos + f.Size();
        case Eof =>
          return Scanned(idx, pos, false);
        case _ =>
          if InSnapshotArea(snapOff, pos) {
            return Scanned(idx, pos, true);
          }
          var next := ResyncScan(crc, area, pos + 1);
          if next.None? {
            return Scanned(idx, pos, true);
          }
          pos := next.value;
      }
    }
  }

  /** The blobs the scan has to walk past to reach a frame lie before the active snapshot pointer. */
  ghost predicate Passable(segs: seq<Segment>, from: nat, snapOff: nat)
  {
    forall i :: from <= i < RecEnd(segs) && segs[i].Blob? ==> !InSnapshotArea(snapOff, Pos(segs, i))
  }

  /** Over a run of blobs, and over the torn tail, nothing decodes. */
  lemma {:induction false} SilentRun(crc: Checksum, area: seq<byte>, segs: seq<Segment>, i: nat, j: nat, p: nat)
    requires Silent(crc, area, segs)
    requires i <= j <= |segs| && BlobRange(segs, i, j)
    requires Pos(segs, i) <= p < Pos(segs, j)
    ensures !DecodesAt(crc, area, p)
    decreases j - i
  {
    hide DecodesAt;
    if i < j && p >= Pos(segs, i + 1) {
      SilentRun(crc, area, segs, i + 1, j, p);
    }
  }

  lemma {:induction false} ResidueRefused(crc: Checksum, area: seq<byte>, pos: nat)
    requires pos < |area| && area[pos] != 0
    requires !DecodesAt(crc, area, pos)
    ensures RecordData(crc, area, pos).Corruption? || RecordData(crc, area, pos).CrcMismatch?
  {
  }

  /** The first frame at or after segment i, when there is one. */
  lemma {:induction false} NextRec(segs: seq<Segment>, i: nat) returns (j: nat)
    requires i < RecEnd(segs)
    ensures i <= j < RecEnd(segs) && segs[j].Rec? && BlobRange(segs, i, j)
  {
    RecEndFacts(segs);
    j := i;
    while segs[j].Blob?
      invariant i <= j < RecEnd(segs) && BlobRange(segs, i, j)
      decreases |segs| - j
    {
      assert j != RecEnd(segs) - 1;
      j := j + 1;
    }
  }

  lemma {:induction false} ScanStops(crc: Checksum, area: seq<byte>, pos: nat, idx: Index, snapOff: nat)
    requires pos < |area| && area[pos] != 0
    requires forall p :: pos <= p < |area| ==> !DecodesAt(crc, area, p)
    ensures Scan(crc, area, pos, idx, snapOff) == Scanned(idx, pos, true)
  {
    ResidueRefused(crc, area, pos);
    hide RecordData;
    hide DecodesAt;
    ResyncFinds(crc, area, pos + 1, |area|);
  }

  lemma {:induction false} ResidueFirstByte(crc: Checksum, segs: seq<Segment>, tail: seq<byte>, i: nat)
    requires AllOk(crc, segs) && Torn(crc, tail) && i <= |segs|
    requires i < |segs| || tail != []
    ensures var area := AreaBytes(segs) + tail;
            Pos(segs, i) < |area| && area[Pos(segs, i)] != 0
  {
    var area, pos := AreaBytes(segs) + tail, Pos(segs, i);
    if i < |segs| {
      SegmentAt(segs, tail, i);
      assert segs[i] in segs;
      FirstByte(crc, segs[i]);
      assert area[pos] == area[pos..pos + |segs[i].bytes|][0];
    } else {
      PosEnd(segs);
      var s: Segment :| s.Ok(crc) && |tail| < |s.bytes| && tail == s.bytes[..|tail|];
      FirstByte(crc, s);
      assert area[pos] == tail[0] == s.bytes[0];
    }
  }

  lemma {:induction false} ResidueSilent(crc: Checksum, segs: seq<Segment>, area: seq<byte>, i: nat, p: nat)
    requires Silent(crc, area, segs)
    requires RecEnd(segs) <= i <= |segs| && Pos(segs, i) <= p < |area|
    ensures !DecodesAt(crc, area, p)
  {
    hide DecodesAt;
    if p < |AreaBytes(segs)| {
      PosEnd(segs);
      RecEndFacts(segs);
      SilentRun(crc, area, segs, i, |segs|, p);
    }
  }

  lemma {:induction false} ScanResidue(crc: Checksum, segs: seq<Segment>, tail: seq<byte>, i: nat, idx: Index, snapOff: nat)
    requires AllOk(crc, segs) && Torn(crc, tail)
    requires Silent(crc, AreaBytes(segs) + tail, segs)
    requires RecEnd(segs) <= i <= |segs|
    ensures Scan(crc, AreaBytes(segs) + tail, Pos(segs, i), idx, snapOff) ==
            Scanned(idx, Pos(segs, i), i < |segs| || tail != [])
  {
    var area, pos := AreaBytes(segs) + tail, Pos(segs, i);
    if i == |segs| && tail == [] {
      PosEnd(segs);
      return;
    }
    hide Scan;
    hide DecodesAt;
    forall p | pos <= p < |area|
      ensures !DecodesAt(crc, area, p)
    {
      ResidueSilent(crc, segs, area, i, p);
    }
    ResidueFirstByte(crc, segs, tail, i);
    ScanStops(crc, area, pos, idx, snapOff);
  }

  /**
   * The scan recovers a layout whatever residue lies in it: the index is the replay of every frame, and
   * the cut falls right after the last frame the scan reached, so no frame is ever cut off.
   */
  lemma {:induction false} ScanLayout(crc: Checksum, segs: seq<Segment>, tail: seq<byte>, i: nat, snapOff: nat)
    requires AllOk(crc, segs) && Torn(crc, tail) && i <= |segs|
    requires Silent(crc, AreaBytes(segs) + tail, segs)
    requires Passable(segs, i, snapOff)
    ensures var k := if i < RecEnd(segs) then RecEnd(segs) else i;
            Scan(crc, AreaBytes(segs) + tail, Pos(segs, i), Replay(segs[..i]), snapOff) ==
            Scanned(Replay(segs), Pos(segs, k), k < |segs| || tail != [])
    decreases |segs| - i
  {
    hide Scan;
    hide AllOk;
    hide Silent;
    if i >= RecEnd(segs) {
      ScanResidue(crc, segs, tail, i, Replay(segs[..i]), snapOff);
      RecEndFacts(segs);
      ReplayRange(segs, i, |segs|);
      assert segs[..|segs|] == segs;
    } else {
      var j := NextRec(segs, i);
      ScanFrame(crc, segs, tail, j, snapOff);
      ScanLayout(crc, segs, tail, j + 1, snapOff);
      if i < j {
        SkipBlobs(crc, segs, tail, i, j, snapOff);
      }
    }
  }

  lemma {:induction false} ScanFrame(crc: Checksum, segs: seq<Segment>, tail: seq<byte>, j: nat, snapOff: nat)
    requires AllOk(crc, segs) && j < |segs| && segs[j].Rec?
    ensures DecodesAt(crc, AreaBytes(segs) + tail, Pos(segs, j))
    ensures Scan(crc, AreaBytes(segs) + tail, Pos(segs, j), Replay(segs[..j]), snapOff) ==
            Scan(crc, AreaBytes(segs) + tail, Pos(segs, j + 1), Replay(segs[..j + 1]), snapOff)
  {
    hide RecordData;
    hide Encode;
    hide Resync;
    SegmentAt(segs, tail, j);
    assert segs[j] in segs;
    DecodeEncoded(crc, AreaBytes(segs) + tail, Pos(segs, j), segs[j].frame);
    PosStep(segs, j);
  }

  lemma {:induction false} SkipBlobs(crc: Checksum, segs: seq<Segment>, tail: seq<byte>, i: nat, j: nat, snapOff: nat)
    requires AllOk(crc, segs) && i < j < RecEnd(segs) && BlobRange(segs, i, j)
    requires Silent(crc, AreaBytes(segs) + tail, segs)
    requires DecodesAt(crc, AreaBytes(segs) + tail, Pos(segs, j))
    requires !InSnapshotArea(snapOff, Pos(segs, i))
    ensures Scan(crc, AreaBytes(segs) + tail, Pos(segs, i), Replay(segs[..i]), snapOff) ==
            Scan(crc, AreaBytes(segs) + tail, Pos(segs, j), Replay(segs[..j]), snapOff)
  {
    var area, pos := AreaBytes(segs) + tail, Pos(segs, i);
    SegmentAt(segs, tail, i);
    FirstByte(crc, segs[i]);
    assert area[pos] == area[pos..pos + |segs[i].bytes|][0];
    OkNonEmpty(crc, segs);
    hide AllOk;
    hide AreaBytes;
    hide Replay;
    hide RecEnd;
    hide RecordData;
    PosMonotone(segs, i, j);
    forall p | pos <= p < Pos(segs, j)
      ensures !DecodesAt(crc, area, p)
    {
      SilentRun(crc, area, segs, i, j, p);
    }
    ResidueRefused(crc, area, pos);
    ResyncFinds(crc, area, pos + 1, Pos(segs, j));
    ReplayRange(segs, i, j);
  }

  // ---- The one-time walk of a file whose header carries no RecordEnd ----

  predicate IsSnapshotBlobAt(raw: seq<byte>) { |raw| >= 13 && FromLE(raw[0..4]) == SNAPSHOT_MAGIC }

  /** walkRecordArea: recordEnd is the absolute end of the last frame passed, 0 before the first one. */
  function WalkRecordArea(crc: Checksum, area: seq<byte>, pos: nat, recordEnd: nat): Option<nat>
    decreases |area| - pos
  {
    if pos >= |area| then (if pos == |area| then Some(recordEnd) else None)
    else if IsSnapshotBlobAt(area[pos..]) then
      match BlobLength(area[pos..])
      case None => None
      case Some(n) => BlobLengthPositive(area[pos..]); WalkRecordArea(crc, area, pos + n, recordEnd)
    else
      match RecordData(crc, area, pos)
      case Ok(f) => WalkRecordArea(crc, area, pos + f.Size(), DATA_START + pos + f.Size())
      case _ => None
  }

  lemma {:induction false} SectionsAtAdvance(raw: seq<byte>, pos: nat, count: nat)
    ensures SectionsAt(raw, pos, count).Some? ==> SectionsAt(raw, pos, count).value.1 >= pos
  {
    if count > 0 {
      SectionsAtAdvance(raw, pos, count - 1);
    }
  }

  lemma {:induction false} BlobLengthPositive(raw: seq<byte>)
    ensures BlobLength(raw).Some? ==> 13 <= BlobLength(raw).value <= |raw|
  {
    if |raw| >= 13 {
      SectionsAtAdvance(raw, 9, FromLE(raw[5..9]));
    }
  }

  /** No frame the engine writes starts with the snapshot magic: its second byte is a flag, 0 or 1. */
  lemma {:induction false} FrameIsNoBlob(crc: Checksum, f: Frame, rest: seq<byte>)
    requires f.flags <= 1
    ensures !IsSnapshotBlobAt(Encode(crc, f) + rest)
  {
    var raw := Encode(crc, f) + rest;
    assert raw[0..4][1] == Encode(crc, f)[1] == Head(f)[1] == f.flags;
    if FromLE(raw[0..4]) == SNAPSHOT_MAGIC {
      MagicSecondByte(raw[0..4]);
    }
  }

  lemma {:induction false} MagicSecondByte(m: seq<byte>)
    requires |m| == 4 && FromLE(m) == SNAPSHOT_MAGIC
    ensures m[1] == 0x41
  {
    LEOfFromLE(m);
    FirstLE(SNAPSHOT_MAGIC / 256, 3);
    assert LE(SNAPSHOT_MAGIC, 4) == [SNAPSHOT_MAGIC % 256] + LE(SNAPSHOT_MAGIC / 256, 3);
  }

  /**
   * On a whole layout the walk ends where the last frame does. With no frame at all it answers 0, an offset
   * inside the headers: the caller takes that for the append point.
   */
  lemma {:induction false} WalkLayout(crc: Checksum, segs: seq<Segment>, i: nat)
    requires AllOk(crc, segs) && i <= |segs|
    requires forall s :: s in segs && s.Rec? ==> s.frame.flags <= 1
    ensures WalkRecordArea(crc, AreaBytes(segs), Pos(segs, i), WalkedEnd(segs, i)) == Some(WalkedEnd(segs, |segs|))
    ensures WalkedEnd(segs, |segs|) == if RecEnd(segs) == 0 then 0 else DATA_START + Pos(segs, RecEnd(segs))
    decreases |segs| - i
  {
    var area, pos := AreaBytes(segs), Pos(segs, i);
    PosEnd(segs);
    assert segs[..|segs|] == segs;
    if i < |segs| {
      WalkLayout(crc, segs, i + 1);
      assert segs[i] in segs;
      WalkStep(crc, segs, i);
    }
  }

  /** The absolute end of the last frame among the first i segments, 0 when there is none. */
  function WalkedEnd(segs: seq<Segment>, i: nat): nat
    requires i <= |segs|
  {
    if RecEnd(segs[..i]) == 0 then 0 else DATA_START + Pos(segs[..i], RecEnd(segs[..i]))
  }

  lemma {:induction false} WalkedEndStep(segs: seq<Segment>, i: nat)
    requires i < |segs|
    ensures WalkedEnd(segs, i + 1) == if segs[i].Rec? then DATA_START + Pos(segs, i + 1) else WalkedEnd(segs, i)
  {
    var next := segs[..i + 1];
    assert next[..i] == segs[..i];
    if segs[i].Rec? {
      assert next[..|next|] == next;
    } else {
      var k := RecEnd(segs[..i]);
      assert next[..k] == segs[..i][..k];
    }
  }

  lemma {:induction false} WalkStep(crc: Checksum, segs: seq<Segment>, i: nat)
    requires i < |segs| && segs[i].Ok(crc)
    requires segs[i].Rec? ==> segs[i].frame.flags <= 1
    ensures WalkRecordArea(crc, AreaBytes(segs), Pos(segs, i), WalkedEnd(segs, i)) ==
            WalkRecordArea(crc, AreaBytes(segs), Pos(segs, i + 1), WalkedEnd(segs, i + 1))
  {
    hide WalkRecordArea;
    hide RecEnd;
    hide Encode;
    hide BlobBytes;
    hide Replay;
    SegmentAtClean(segs, i);
    PosStep(segs, i);
    WalkedEndStep(segs, i);
    hide WalkedEnd;
    hide AreaBytes;
    hide Pos;
    WalkOverSegment(crc, AreaBytes(segs), Pos(segs, i), WalkedEnd(segs, i), segs[i]);
  }

  lemma {:induction false} WalkOverSegment(crc: Checksum, area: seq<byte>, pos: nat, end: nat, s: Segment)
    requires s.Ok(crc) && (s.Rec? ==> s.frame.flags <= 1)
    requires pos + |s.bytes| <= |area| && area[pos..pos + |s.bytes|] == s.bytes
    ensures WalkRecordArea(crc, area, pos, end) ==
            WalkRecordArea(crc, area, pos + |s.bytes|, if s.Rec? then DATA_START + pos + |s.bytes| else end)
  {
    hide WalkRecordArea;
    hide Encode;
    hide BlobBytes;
    if s.Rec? {
      WalkOverFrame(crc, area, pos, end, s.frame);
    } else {
      WalkOverBlob(crc, area, pos, end, s.secs);
    }
  }

  lemma {:induction false} WalkOverFrame(crc: Checksum, area: seq<byte>, pos: nat, end: nat, f: Frame)
    requires f.Fits() && f.rtype != 0 && f.flags <= 1
    requires pos + f.Size() <= |area| && area[pos..pos + f.Size()] == Encode(crc, f)
    ensures WalkRecordArea(crc, area, pos, end) ==
            WalkRecordArea(crc, area, pos + f.Size(), DATA_START + pos + f.Size())
  {
    var rest := area[pos + f.Size()..];
    assert area[pos..] == area[pos..pos + f.Size()] + rest;
    FrameIsNoBlob(crc, f, rest);
    DecodeEncoded(crc, area, pos, f);
    hide Encode;
    hide RecordData;
    hide IsSnapshotBlobAt;
    hide BlobLength;
  }

  lemma {:induction false} WalkOverBlob(crc: Checksum, area: seq<byte>, pos: nat, end: nat, secs: seq<Section>)
    requires SectionsFit(secs)
    requires pos + |BlobBytes(crc, secs)| <= |area| && area[pos..pos + |BlobBytes(crc, secs)|] == BlobBytes(crc, secs)
    ensures WalkRecordArea(crc, area, pos, end) == WalkRecordArea(crc, area, pos + |BlobBytes(crc, secs)|, end)
  {
    hide BlobBytes;
    hide BlobLength;
    hide IsSnapshotBlobAt;
    var blob := BlobBytes(crc, secs);
    var rest := area[pos + |blob|..];
    assert area[pos..] == blob + rest;
    BlobStarts(crc, secs, rest);
    BlobLengthIgnoresSuffix(crc, secs, rest);
    hide RecordData;
  }

  lemma {:induction false} BlobStarts(crc: Checksum, secs: seq<Section>, rest: seq<byte>)
    requires SectionsFit(secs)
    ensures IsSnapshotBlobAt(BlobBytes(crc, secs) + rest)
  {
    EnvelopeOfBlob(crc, BlobBytes(crc, secs) + rest, secs);
  }
}
