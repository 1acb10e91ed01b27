// The two 4096-byte file headers and the choice between them.
module Headers {
  import opened Common
  import opened Bytes
  import opened Snapshots

  const HEADER_SIZE: nat := 4096
  const DATA_START: nat := 8192
  const FORMAT_VERSION: nat := 0x0012
  const MAGIC: seq<byte> := [0x4D, 0x45, 0x48, 0x32]       // "MEH2"
  const TAIL_MAGIC: seq<byte> := [0x32, 0x48, 0x45, 0x4D]  // "2HEM"

  /** The header as the engine holds it; the stored checksum is a function of the rest. */
  datatype FileHeader = FileHeader(
    version: nat, reserved: nat, commit: nat, snapOff: nat, snapLen: nat,
    recordCount: nat, flags: nat, recordEnd: nat)
  {
    /** Every field is inside its width: the encoder truncates anything wider. */
    predicate Fits() {
      && version < 0x1_0000 && reserved < 0x1_0000
      && commit < 0x1_0000_0000_0000_0000 && snapOff < 0x1_0000_0000_0000_0000
      && snapLen < 0x1_0000_0000 && recordCount < 0x1_0000_0000 && flags < 0x1_0000_0000
      && recordEnd < 0x1_0000_0000_0000_0000
    }

    predicate NamesSnapshot() { snapOff != 0 && snapLen != 0 }
  }

  function NewFileHeader(): FileHeader { FileHeader(FORMAT_VERSION, 0, 0, 0, 0, 0, 0, 0) }

  function Zeros(n: nat): (b: seq<byte>)
    ensures |b| == n
  {
    seq(n, _ => 0)
  }

  function FieldBytes(h: FileHeader): (b: seq<byte>)
    ensures |b| == 40
  {
    LE(h.version, 2) + LE(h.reserved, 2) + LE(h.commit, 8) + LE(h.snapOff, 8) + LE(h.snapLen, 4) +
    LE(h.recordCount, 4) + LE(h.flags, 4) + LE(h.recordEnd, 8)
  }

  function Sealed(h: FileHeader): (b: seq<byte>)
    ensures |b| == 4088
  {
    MAGIC + FieldBytes(h) + Zeros(4044)
  }

  function ToBytes(crc: Checksum, h: FileHeader): (b: seq<byte>)
    ensures |b| == HEADER_SIZE
  {
    Sealed(h) + LE(crc(Sealed(h)), 4) + TAIL_MAGIC
  }

  function FieldsAt(b: seq<byte>): FileHeader
    requires |b| >= 44
  {
    FileHeader(FromLE(b[4..6]), FromLE(b[6..8]), FromLE(b[8..16]), FromLE(b[16..24]), FromLE(b[24..28]),
               FromLE(b[28..32]), FromLE(b[32..36]), FromLE(b[36..44]))
  }

  /** FileHeaderFromBytes: None stands for each of its refusals. */
  function FromBytes(crc: Checksum, b: seq<byte>): Option<FileHeader>
  {
    if |b| != HEADER_SIZE || b[0..4] != MAGIC || b[4092..4096] != TAIL_MAGIC then None
    else if crc(b[..4088]) != FromLE(b[4088..4092]) then None
    else if FromLE(b[4..6]) != FORMAT_VERSION then None
    else Some(FieldsAt(b))
  }

  lemma {:induction false} LE16(v: nat)
    requires v < 0x1_0000
    ensures FromLE(LE(v, 2)) == v
  {
    Pow256Widths();
    LERoundTrip(v, 2);
  }

  lemma {:induction false} FieldsRoundTrip(b: seq<byte>, h: FileHeader)
    requires h.Fits() && |b| >= 44 && b[4..44] == FieldBytes(h)
    ensures FieldsAt(b) == h
  {
    var f := FieldBytes(h);
    SubSlice(b, 4, f, 0, 2);
    SubSlice(b, 4, f, 2, 4);
    SubSlice(b, 4, f, 4, 12);
    SubSlice(b, 4, f, 12, 20);
    SubSlice(b, 4, f, 20, 24);
    SubSlice(b, 4, f, 24, 28);
    SubSlice(b, 4, f, 28, 32);
    SubSlice(b, 4, f, 32, 40);
    assert f[0..2] == LE(h.version, 2) && f[2..4] == LE(h.reserved, 2);
    assert f[4..12] == LE(h.commit, 8) && f[12..20] == LE(h.snapOff, 8);
    assert f[20..24] == LE(h.snapLen, 4) && f[24..28] == LE(h.recordCount, 4);
    assert f[28..32] == LE(h.flags, 4) && f[32..40] == LE(h.recordEnd, 8);
    LE16(h.version);
    LE16(h.reserved);
    LE64(h.commit);
    LE64(h.snapOff);
    LE32(h.snapLen);
    LE32(h.recordCount);
    LE32(h.flags);
    LE64(h.recordEnd);
  }

  /** A whole header write reads back as the header that was written. */
  lemma {:induction false} HeaderRoundTrip(crc: Checksum, h: FileHeader)
    requires h.Fits() && h.version == FORMAT_VERSION
    ensures FromBytes(crc, ToBytes(crc, h)) == Some(h)
  {
    var b, s := ToBytes(crc, h), Sealed(h);
    assert b[..4088] == s && b[4088..4092] == LE(crc(s), 4) && b[4092..4096] == TAIL_MAGIC;
    LE32(crc(s));
    assert s[0..4] == MAGIC && s[4..44] == FieldBytes(h);
    assert b[0..4] == s[0..4] && b[4..44] == s[4..44];
    FieldsRoundTrip(b, h);
  }

  /** Whatever reads back fits its fields and carries the supported version. */
  lemma {:induction false} DecodedFits(crc: Checksum, b: seq<byte>)
    requires FromBytes(crc, b).Some?
    ensures FromBytes(crc, b).value.Fits() && FromBytes(crc, b).value.version == FORMAT_VERSION
  {
    Pow256Widths();
    FromLEBound(b[4..6]);
    FromLEBound(b[6..8]);
    FromLEBound(b[8..16]);
    FromLEBound(b[16..24]);
    FromLEBound(b[24..28]);
    FromLEBound(b[28..32]);
    FromLEBound(b[32..36]);
    FromLEBound(b[36..44]);
    hide FromLE;
  }

  lemma {:induction false} FieldsEncode(b: seq<byte>)
    requires |b| >= 44
    ensures FieldBytes(FieldsAt(b)) == b[4..44]
  {
    LEOfFromLE(b[4..6]);
    LEOfFromLE(b[6..8]);
    LEOfFromLE(b[8..16]);
    LEOfFromLE(b[16..24]);
    LEOfFromLE(b[24..28]);
    LEOfFromLE(b[28..32]);
    LEOfFromLE(b[32..36]);
    LEOfFromLE(b[36..44]);
    hide LE;
    hide FromLE;
    assert b[4..44] == b[4..6] + b[6..8] + b[8..16] + b[16..24] + b[24..28] + b[28..32] + b[32..36] + b[36..44];
  }

  /** A block reads back as h exactly when it carries h's fields, both magics and the checksum over all before it. */
  lemma {:induction false} ReadsBackExactly(crc: Checksum, b: seq<byte>, h: FileHeader)
    ensures FromBytes(crc, b) == Some(h) <==>
            && |b| == HEADER_SIZE && b[..44] == MAGIC + FieldBytes(h) && h.Fits() && h.version == FORMAT_VERSION
            && b[4088..] == LE(crc(b[..4088]), 4) + TAIL_MAGIC
  {
    if |b| == HEADER_SIZE {
      assert b[..44] == b[0..4] + b[4..44] && b[4088..] == b[4088..4092] + b[4092..4096];
      if FromBytes(crc, b) == Some(h) {
        DecodedFits(crc, b);
        FieldsEncode(b);
        LEOfFromLE(b[4088..4092]);
      } else if b[..44] == MAGIC + FieldBytes(h) && h.Fits() && b[4088..] == LE(crc(b[..4088]), 4) + TAIL_MAGIC {
        ReadsSealed(crc, b, h);
      }
    }
    hide FieldBytes;
    hide FromLE;
    hide LE;
  }

  lemma {:induction false} ReadsSealed(crc: Checksum, b: seq<byte>, h: FileHeader)
    requires |b| == HEADER_SIZE && b[..44] == MAGIC + FieldBytes(h) && h.Fits() && b[4088..] == LE(crc(b[..4088]), 4) + TAIL_MAGIC
    ensures h.version == FORMAT_VERSION ==> FromBytes(crc, b) == Some(h)
  {
    assert b[0..4] == b[..44][0..4] == MAGIC && b[4..44] == b[..44][4..44] == FieldBytes(h);
    assert b[4088..4092] == b[4088..][0..4] == LE(crc(b[..4088]), 4) && b[4092..4096] == b[4088..][4..8] == TAIL_MAGIC;
    LE32(crc(b[..4088]));
    FieldsRoundTrip(b, h);
    hide FieldBytes;
    hide FieldsAt;
  }

  /** The headers as loaded and which of the two slots is active (false = A). */
  datatype Loaded = Loaded(hA: FileHeader, hB: FileHeader, activeB: bool)
  {
    function Active(): FileHeader { if activeB then hB else hA }
  }

  function SelectValidHeader(a: FileHeader, b: FileHeader): FileHeader
  {
    if a.commit >= b.commit then a else b
  }

  function LoadHeaders(crc: Checksum, slotA: seq<byte>, slotB: seq<byte>): Option<Loaded>
  {
    match (FromBytes(crc, slotA), FromBytes(crc, slotB))
    case (Some(a), Some(b)) =>
      var active := SelectValidHeader(a, b);
      if active.commit == a.commit then Some(Loaded(a, b, false)) else Some(Loaded(a, b, true))
    case (Some(a), None) => Some(Loaded(a, a, false))
    case (None, Some(b)) => Some(Loaded(b, b, true))
    case (None, None) => None
  }
}
