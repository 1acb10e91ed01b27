// Record frames: type(1) flags(1) length(4) agent(8) id(8) crc(4) data.
// The model reads the record area, that is the file from DATA_START on; a position is
// an offset relative to DATA_START.
module Frames {
  import opened Bytes

  const RECORD_HEADER_SIZE: nat := 26
  const FLAG_DELETED: byte := 1

  datatype Frame = Frame(agent: uint64, rtype: byte, flags: byte, id: uint64, data: seq<byte>)
  {
    predicate Deleted() { flags % 2 == 1 }

    /** What the length field can say: a longer payload is silently truncated by the encoder's cast. */
    predicate Fits() { |data| < 0x1_0000_0000 }

    /** The header bytes RecordData takes for unwritten, zero-filled space. */
    predicate LooksUnwritten() { rtype == 0 && flags == 0 && data == [] && agent == 0 && id == 0 }

    function Size(): nat { RECORD_HEADER_SIZE + |data| }
  }

  datatype Decoded = Ok(frame: Frame) | Eof | Corruption | CrcMismatch

  function Head(f: Frame): (b: seq<byte>)
    ensures |b| == 22
  {
    [f.rtype, f.flags] + LE(|f.data|, 4) + LE(f.agent, 8) + LE(f.id, 8)
  }

  function Encode(crc: Checksum, f: Frame): (b: seq<byte>)
    ensures |b| == f.Size()
  {
    Head(f) + LE(crc(Head(f) + f.data), 4) + f.data
  }

  /** EncodeRecord as it runs: one buffer, filled field by field. */
  method EncodeRecord(crc: Checksum, f: Frame) returns (encoded: seq<byte>)
    ensures encoded == Encode(crc, f)
  {
    hide LE;
    var buf := new byte[RECORD_HEADER_SIZE + |f.data|](_ => 0);
    buf[0] := f.rtype;
    buf[1] := f.flags;
    PutBytes(buf, 2, LE(|f.data|, 4));
    PutBytes(buf, 6, LE(f.agent, 8));
    PutBytes(buf, 14, LE(f.id, 8));
    PutBytes(buf, RECORD_HEADER_SIZE, f.data);
    assert buf[2..6] == LE(|f.data|, 4) && buf[6..14] == LE(f.agent, 8) && buf[14..22] == LE(f.id, 8);
    assert buf[..22] == [buf[0], buf[1]] + buf[2..6] + buf[6..14] + buf[14..22] == Head(f);
    var sum := crc(buf[..22] + f.data);
    ghost var head := buf[..22];
    PutBytes(buf, 22, LE(sum, 4));
    assert buf[..22] == head && buf[22..26] == LE(sum, 4) && buf[26..] == f.data;
    assert buf[..] == buf[..22] + buf[22..26] + buf[26..];
    encoded := buf[..];
  }

  method PutBytes(buf: array<byte>, at: nat, b: seq<byte>)
    requires at + |b| <= buf.Length
    modifies buf
    ensures forall k :: 0 <= k < |b| ==> buf[at + k] == b[k]
    ensures forall k :: 0 <= k < buf.Length && !(at <= k < at + |b|) ==> buf[k] == old(buf[k])
  {
    for i := 0 to |b|
      invariant forall k :: 0 <= k < i ==> buf[at + k] == b[k]
      invariant forall k :: 0 <= k < buf.Length && !(at <= k < at + i) ==> buf[k] == old(buf[k])
    {
      buf[at + i] := b[i];
    }
  }

  function RecordData(crc: Checksum, area: seq<byte>, pos: nat): Decoded
  {
    if pos == |area| then Eof
    else if pos > |area| || RECORD_HEADER_SIZE > |area| - pos then Corruption
    else
      var dataLen := FromLE(area[pos + 2..pos + 6]);
      var agent := FromLE(area[pos + 6..pos + 14]);
      var id := FromLE(area[pos + 14..pos + 22]);
      if area[pos] == 0 && area[pos + 1] == 0 && dataLen == 0 && agent == 0 && id == 0 then Eof
      else if dataLen > |area| - (pos + RECORD_HEADER_SIZE) then Corruption
      else
        var data := area[pos + 26..pos + 26 + dataLen];
        if crc(area[pos..pos + 22] + data) != FromLE(area[pos + 22..pos + 26]) then CrcMismatch
        else
          Pow256Widths();
          FromLEBound(area[pos + 6..pos + 14]);
          FromLEBound(area[pos + 14..pos + 22]);
          Ok(Frame(agent, area[pos], area[pos + 1], id, data))
  }

  predicate DecodesAt(crc: Checksum, area: seq<byte>, pos: nat)
  {
    RecordData(crc, area, pos).Ok?
  }

  /** The fields of a frame read back from any area that holds its header at pos. */
  lemma {:induction false} HeadFields(crc: Checksum, area: seq<byte>, pos: nat, f: Frame)
    requires f.Fits()
    requires pos + 22 <= |area| && area[pos..pos + 22] == Head(f)
    ensures area[pos] == f.rtype && area[pos + 1] == f.flags
    ensures FromLE(area[pos + 2..pos + 6]) == |f.data|
    ensures FromLE(area[pos + 6..pos + 14]) == f.agent
    ensures FromLE(area[pos + 14..pos + 22]) == f.id
  {
    var h := Head(f);
    assert area[pos] == area[pos..pos + 22][0] && area[pos + 1] == area[pos..pos + 22][1];
    SubSlice(area, pos, h, 2, 6);
    SubSlice(area, pos, h, 6, 14);
    SubSlice(area, pos, h, 14, 22);
    assert h[2..6] == LE(|f.data|, 4) && h[6..14] == LE(f.agent, 8) && h[14..22] == LE(f.id, 8);
    LE32(|f.data|);
    LE64(f.agent);
    LE64(f.id);
  }

  /** A frame reads back whatever bytes surround it. */
  lemma {:induction false} DecodeEncoded(crc: Checksum, area: seq<byte>, pos: nat, f: Frame)
    requires f.Fits() && !f.LooksUnwritten()
    requires pos + f.Size() <= |area| && area[pos..pos + f.Size()] == Encode(crc, f)
    ensures RecordData(crc, area, pos) == Ok(f)
  {
    var e := Encode(crc, f);
    SubSlice(area, pos, e, 0, 22);
    SubSlice(area, pos, e, 22, 26);
    SubSlice(area, pos, e, 26, |e|);
    var sum := crc(Head(f) + f.data);
    assert e[0..22] == Head(f) && e[22..26] == LE(sum, 4) && e[26..] == f.data;
    HeadFields(crc, area, pos, f);
    LE32(sum);
  }

  lemma {:induction false} HeadOfFields(area: seq<byte>, pos: nat, f: Frame)
    requires pos + 22 <= |area|
    requires area[pos] == f.rtype && area[pos + 1] == f.flags
    requires FromLE(area[pos + 2..pos + 6]) == |f.data|
    requires FromLE(area[pos + 6..pos + 14]) == f.agent
    requires FromLE(area[pos + 14..pos + 22]) == f.id
    ensures area[pos..pos + 22] == Head(f)
  {
    var l, a, i := area[pos + 2..pos + 6], area[pos + 6..pos + 14], area[pos + 14..pos + 22];
    LEOfFromLE(l);
    LEOfFromLE(a);
    LEOfFromLE(i);
    hide LE;
    hide FromLE;
    assert area[pos..pos + 22] == [area[pos], area[pos + 1]] + l + a + i;
  }

  /** An offset that decodes holds, byte for byte, the encoding of what it decodes to. */
  lemma {:induction false} EncodeDecoded(crc: Checksum, area: seq<byte>, pos: nat)
    requires DecodesAt(crc, area, pos)
    ensures var f := RecordData(crc, area, pos).frame;
            f.Fits() && !f.LooksUnwritten() &&
            pos + f.Size() <= |area| && area[pos..pos + f.Size()] == Encode(crc, f)
  {
    var f := RecordData(crc, area, pos).frame;
    var sum := area[pos + 22..pos + 26];
    Pow256Widths();
    FromLEBound(area[pos + 2..pos + 6]);
    LEOfFromLE(sum);
    HeadOfFields(area, pos, f);
    Thirds(area, pos, f.Size());
  }

  lemma {:induction false} Thirds(area: seq<byte>, pos: nat, size: nat)
    requires 26 <= size && pos + size <= |area|
    ensures area[pos..pos + size] ==
            area[pos..pos + 22] + area[pos + 22..pos + 26] + area[pos + 26..pos + size]
  {
  }

  /** No proper nonempty prefix of a frame decodes at the end of the file: the torn tail is always told apart. */
  lemma {:induction false} TornFrame(crc: Checksum, area: seq<byte>, pos: nat, f: Frame, k: nat)
    requires f.Fits() && 0 < k < f.Size()
    requires |area| == pos + k && area[pos..] == Encode(crc, f)[..k]
    ensures RecordData(crc, area, pos) == Corruption
  {
    if k >= RECORD_HEADER_SIZE {
      assert area[pos..pos + 22] == Encode(crc, f)[..22] == Head(f);
      HeadFields(crc, area, pos, f);
    }
  }

  function EncodeAll(crc: Checksum, fs: seq<Frame>): seq<byte>
  {
    if fs == [] then [] else Encode(crc, fs[0]) + EncodeAll(crc, fs[1..])
  }

  /** Reads frames off the end of area from pos until one does not decode. */
  function DecodeAll(crc: Checksum, area: seq<byte>, pos: nat): seq<Frame>
    decreases |area| - pos
  {
    match RecordData(crc, area, pos)
    case Ok(f) => EncodeDecoded(crc, area, pos); [f] + DecodeAll(crc, area, pos + f.Size())
    case _ => []
  }

  lemma {:induction false} DecodeAllStep(crc: Checksum, area: seq<byte>, pos: nat, f: Frame)
    requires RecordData(crc, area, pos) == Ok(f)
    ensures DecodeAll(crc, area, pos) == [f] + DecodeAll(crc, area, pos + f.Size())
  {
  }

  /** Any concatenation of encoded frames decodes back in order, and to nothing more. */
  lemma {:induction false} ConcatenationRoundTrip(crc: Checksum, area: seq<byte>, pos: nat, fs: seq<Frame>)
    requires forall f :: f in fs ==> f.Fits() && !f.LooksUnwritten()
    requires pos <= |area| && area[pos..] == EncodeAll(crc, fs)
    ensures DecodeAll(crc, area, pos) == fs
    decreases fs
  {
    if fs == [] {
      assert |area[pos..]| == |area| - pos;
    } else {
      var e, rest := Encode(crc, fs[0]), EncodeAll(crc, fs[1..]);
      SplitSlice(area, pos, e, rest);
      DecodeEncoded(crc, area, pos, fs[0]);
      DecodeAllStep(crc, area, pos, fs[0]);
      ConcatenationRoundTrip(crc, area, pos + fs[0].Size(), fs[1..]);
    }
  }

  lemma {:induction false} SplitSlice(area: seq<byte>, pos: nat, a: seq<byte>, b: seq<byte>)
    requires pos <= |area| && area[pos..] == a + b
    ensures pos + |a| <= |area| && area[pos..pos + |a|] == a && area[pos + |a|..] == b
  {
    assert area[pos..pos + |a|] == area[pos..][..|a|];
    assert area[pos + |a|..] == area[pos..][|a|..];
  }
}
