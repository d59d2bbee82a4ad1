/** The byte encodings `BoutWrite` emits (source/kabuki/script/impl/script_bout.cc):
    little-endian scalars, null-terminated strings, 7-bit-group varints that
    mark their LAST byte with 0x80, and raw blocks; and the decoders that
    read them back. */
module BoutCodec {
  import opened Types

  // ---------------------------------------------------------------------------
  // Little-endian scalars
  // ---------------------------------------------------------------------------

  /** The `n` bytes `(byte)(v >> 8k)`, `k` from 0 up. */
  function LittleEndian(v: nat, n: nat): (bs: seq<byte>)
    ensures |bs| == n
  {
    if n == 0 then [] else [(v % 0x100) as byte] + LittleEndian(v / 0x100, n - 1)
  }

  /** The value a little-endian host reads back from `bs`. */
  function FromLittleEndian(bs: seq<byte>): nat
  {
    if bs == [] then 0 else bs[0] as nat + 0x100 * FromLittleEndian(bs[1..])
  }

  lemma {:induction false} LittleEndianRoundTrip(v: nat, n: nat)
    requires v < Pow256(n)
    ensures FromLittleEndian(LittleEndian(v, n)) == v
  {
    if n > 0 {
      var bs := LittleEndian(v, n);
      assert bs[1..] == LittleEndian(v / 0x100, n - 1);
      LittleEndianRoundTrip(v / 0x100, n - 1);
    }
  }

  lemma {:induction false} FromLittleEndianBound(bs: seq<byte>)
    ensures FromLittleEndian(bs) < Pow256(|bs|)
  {
    if bs != [] {
      FromLittleEndianBound(bs[1..]);
    }
  }

  /** Reading `n` bytes and writing the value back gives the same bytes. */
  lemma {:induction false} LittleEndianOfRead(bs: seq<byte>)
    ensures LittleEndian(FromLittleEndian(bs), |bs|) == bs
  {
    if bs != [] {
      var v := FromLittleEndian(bs);
      assert v % 0x100 == bs[0] as nat && v / 0x100 == FromLittleEndian(bs[1..]);
      LittleEndianOfRead(bs[1..]);
    }
  }

  // ---------------------------------------------------------------------------
  // Varints
  // ---------------------------------------------------------------------------

  function Pow128(n: nat): (p: nat)
    ensures p >= 1
  {
    if n == 0 then 1 else 0x80 * Pow128(n - 1)
  }

  /** The `WriteVarint2`/`WriteVarint4` loop: 7-bit groups, least significant
      first; the group after which nothing is left carries 0x80. */
  function Varint(v: nat): (bs: seq<byte>)
    ensures |bs| >= 1
    ensures bs[|bs| - 1] >= 0x80
    ensures forall k :: 0 <= k < |bs| - 1 ==> bs[k] < 0x80
  {
    if v < 0x80 then [(v + 0x80) as byte]
    else [(v % 0x80) as byte] + Varint(v / 0x80)
  }

  /** Reader for `Varint`: groups are summed up to the first byte with 0x80. */
  function DecodeVarint(bs: seq<byte>): nat
  {
    if bs == [] then 0
    else if bs[0] >= 0x80 then bs[0] as nat - 0x80
    else bs[0] as nat + 0x80 * DecodeVarint(bs[1..])
  }

  lemma {:induction false} VarintRoundTrip(v: nat)
    ensures DecodeVarint(Varint(v)) == v
  {
    if v >= 0x80 {
      var bs := Varint(v);
      assert bs[1..] == Varint(v / 0x80);
      VarintRoundTrip(v / 0x80);
    }
  }

  /** A varint takes exactly `k` bytes when `128^(k-1) <= v < 128^k`. */
  lemma {:induction false} VarintLength(v: nat, k: nat)
    requires k >= 1 && v < Pow128(k)
    requires k == 1 || Pow128(k - 1) <= v
    ensures |Varint(v)| == k
  {
    if k > 1 {
      assert v >= 0x80 by {
        assert Pow128(k - 1) >= 0x80 by { PowGrows(k - 1); }
      }
      assert Pow128(k) == 0x80 * Pow128(k - 1);
      if k > 2 {
        assert Pow128(k - 1) == 0x80 * Pow128(k - 2);
      }
      VarintLength(v / 0x80, k - 1);
    }
  }

  /** A varint of two or more bytes holds a value of at least 0x80, used by
      the length lemmas. */
  lemma {:induction false} PowGrows(n: nat)
    requires n >= 1
    ensures Pow128(n) >= 0x80
  {
    if n > 1 {
      PowGrows(n - 1);
    }
  }

  lemma {:induction false} VarintLengthAtMost(v: nat, k: nat)
    requires k >= 1 && v < Pow128(k)
    ensures |Varint(v)| <= k
  {
    if v >= 0x80 {
      assert k > 1;
      assert Pow128(k) == 0x80 * Pow128(k - 1);
      VarintLengthAtMost(v / 0x80, k - 1);
    }
  }

  /** A 16-bit value takes at most 3 bytes, a 32-bit value at most 5. */
  lemma VarintWidths(v: nat)
    ensures v < 0x1_0000 ==> |Varint(v)| <= 3
    ensures v < 0x1_0000_0000 ==> |Varint(v)| <= 5
  {
    assert Pow128(3) == 0x20_0000;
    assert Pow128(5) == 0x8_0000_0000;
    if v < 0x1_0000 {
      VarintLengthAtMost(v, 3);
    }
    if v < 0x1_0000_0000 {
      VarintLengthAtMost(v, 5);
    }
  }

  /** The byte counts at the group boundaries. */
  lemma VarintBoundaries()
    ensures |Varint(0)| == 1 && |Varint(127)| == 1
    ensures |Varint(128)| == 2 && |Varint(16383)| == 2 && |Varint(16384)| == 3
    ensures |Varint(0x7FFF_FFFF)| == 5
  {
    assert Pow128(1) == 0x80;
    assert Pow128(2) == 0x4000;
    assert Pow128(3) == 0x20_0000;
    assert Pow128(4) == 0x1000_0000;
    assert Pow128(5) == 0x8_0000_0000;
    VarintLength(0, 1);
    VarintLength(127, 1);
    VarintLength(128, 2);
    VarintLength(16383, 2);
    VarintLength(16384, 3);
    VarintLength(0x7FFF_FFFF, 5);
  }

  /** The `WriteVarint8` loop with its byte counter kept across iterations:
      up to `groups` 7-bit groups, then one full 8-bit byte with no marker. */
  function Varint8(v: nat, groups: nat): (bs: seq<byte>)
    ensures 1 <= |bs| <= groups + 1
  {
    if groups == 0 then [(v % 0x100) as byte]
    else if v < 0x80 then [(v + 0x80) as byte]
    else [(v % 0x80) as byte] + Varint8(v / 0x80, groups - 1)
  }

  /** The largest value plus one that `groups` groups and a full byte hold. */
  function Varint8Limit(groups: nat): (n: nat)
    ensures n >= 0x100
  {
    if groups == 0 then 0x100 else 0x80 * Varint8Limit(groups - 1)
  }

  function DecodeVarint8(bs: seq<byte>, groups: nat): nat
  {
    if bs == [] then 0
    else if groups == 0 then bs[0] as nat
    else if bs[0] >= 0x80 then bs[0] as nat - 0x80
    else bs[0] as nat + 0x80 * DecodeVarint8(bs[1..], groups - 1)
  }

  lemma {:induction false} Varint8RoundTrip(v: nat, groups: nat)
    requires v < Varint8Limit(groups)
    ensures DecodeVarint8(Varint8(v, groups), groups) == v
  {
    if groups > 0 && v >= 0x80 {
      var bs := Varint8(v, groups);
      assert bs[1..] == Varint8(v / 0x80, groups - 1);
      Varint8RoundTrip(v / 0x80, groups - 1);
    }
  }

  /** Eight groups and a full byte hold every 64-bit value in at most 9 bytes. */
  lemma Varint8Holds64Bits()
    ensures Varint8Limit(8) == 0x1_0000_0000_0000_0000
    ensures forall v: nat :: |Varint8(v, 8)| <= 9
  {
  }

  /** Below `128^groups` the capped encoding is the plain varint. */
  lemma {:induction false} Varint8AgreesWithVarint(v: nat, groups: nat)
    requires groups >= 1 && v < Pow128(groups)
    ensures Varint8(v, groups) == Varint(v)
  {
    if v >= 0x80 {
      assert Pow128(groups) == 0x80 * Pow128(groups - 1);
      Varint8AgreesWithVarint(v / 0x80, groups - 1);
    }
  }
}
