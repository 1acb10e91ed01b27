// Little-endian integers over byte sequences, as encoding/binary lays them out.
module Bytes {

  type byte = x: int | 0 <= x < 0x100
  type uint32 = x: int | 0 <= x < 0x1_0000_0000
  type uint64 = x: int | 0 <= x < 0x1_0000_0000_0000_0000

  /** A checksum over bytes. The engine calls CRC-32; nothing proved here depends on which one. */
  type Checksum = seq<byte> -> uint32

  function Pow256(n: nat): (p: nat)
    ensures p > 0
  {
    if n == 0 then 1 else 256 * Pow256(n - 1)
  }

  lemma {:induction false} Pow256Widths()
    ensures Pow256(2) == 0x1_0000
    ensures Pow256(4) == 0x1_0000_0000
    ensures Pow256(8) == 0x1_0000_0000_0000_0000
  {
    assert Pow256(2) == 256 * (256 * Pow256(0));
    assert Pow256(4) == 256 * (256 * Pow256(2));
    assert Pow256(6) == 256 * (256 * Pow256(4));
    assert Pow256(8) == 256 * (256 * Pow256(6));
  }

  /** The n low-order bytes of v, least significant first: a wider v is truncated, as a Go cast truncates. */
  function LE(v: nat, n: nat): (b: seq<byte>)
    ensures |b| == n
    decreases n, v
  {
    if n == 0 then [] else [v % 256] + LE(v / 256, n - 1)
  }

  function FromLE(b: seq<byte>): nat
  {
    if b == [] then 0 else b[0] + 256 * FromLE(b[1..])
  }

  /** Decoding undoes encoding exactly when the value fits the width. */
  lemma {:induction false} LERoundTrip(v: nat, n: nat)
    ensures FromLE(LE(v, n)) == v <==> v < Pow256(n)
    ensures FromLE(LE(v, n)) < Pow256(n)
    decreases n
  {
    if n > 0 {
      var b := LE(v, n);
      assert b[1..] == LE(v / 256, n - 1);
      LERoundTrip(v / 256, n - 1);
    }
  }

  lemma {:induction false} LowByte(low: byte, rest: nat)
    ensures (low + 256 * rest) % 256 == low && (low + 256 * rest) / 256 == rest
  {
  }

  lemma {:induction false} FirstLE(v: nat, n: nat)
    requires n > 0
    ensures LE(v, n)[0] == v % 256
  {
  }

  lemma {:induction false} FromLEBound(b: seq<byte>)
    ensures FromLE(b) < Pow256(|b|)
  {
    if b != [] {
      FromLEBound(b[1..]);
    }
  }

  /** Encoding undoes decoding for every byte string of the width. */
  lemma {:induction false} LEOfFromLE(b: seq<byte>)
    ensures LE(FromLE(b), |b|) == b
  {
    if b != [] {
      LEOfFromLE(b[1..]);
      var rest := FromLE(b[1..]);
      LowByte(b[0], rest);
      assert LE(b[0] + 256 * rest, |b|) == [b[0]] + LE(rest, |b| - 1);
    }
  }

  /** A slice of a slice: what holds of a field inside a block holds of it in the whole. */
  lemma {:induction false} SubSlice(area: seq<byte>, pos: nat, block: seq<byte>, i: nat, j: nat)
    requires pos + |block| <= |area| && area[pos..pos + |block|] == block
    requires i <= j <= |block|
    ensures area[pos + i..pos + j] == block[i..j]
  {
    forall k | i <= k < j
      ensures area[pos + i..pos + j][k - i] == block[k]
    {
      assert area[pos..pos + |block|][k] == area[pos + k];
    }
  }

  lemma {:induction false} SplitBlock(area: seq<byte>, pos: nat, a: seq<byte>, b: seq<byte>)
    requires pos + |a| + |b| <= |area| && area[pos..pos + |a| + |b|] == a + b
    ensures area[pos..pos + |a|] == a && area[pos + |a|..pos + |a| + |b|] == b
  {
    assert pos + |a + b| == pos + |a| + |b|;
    SubSlice(area, pos, a + b, 0, |a|);
    SubSlice(area, pos, a + b, |a|, |a| + |b|);
  }

  lemma {:induction false} LE32(v: nat)
    requires v < 0x1_0000_0000
    ensures FromLE(LE(v, 4)) == v
  {
    Pow256Widths();
    LERoundTrip(v, 4);
  }

  lemma {:induction false} LE64(v: nat)
    requires v < 0x1_0000_0000_0000_0000
    ensures FromLE(LE(v, 8)) == v
  {
    Pow256Widths();
    LERoundTrip(v, 8);
  }
}
