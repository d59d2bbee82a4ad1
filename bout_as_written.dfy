/** Cases of `BoutWrite` (source/kabuki/script/impl/script_bout.cc) as the
    code is written, where that differs from what the surrounding code and
    comments intend. The rest of the model uses the intended behaviour in
    module `Bout`; each lemma here names an input on which the two differ. */
module BoutAsWritten {
  import opened Types
  import opened Utils
  import opened BoutTypes
  import opened BoutCodec
  import opened Bout

  const Uint32Range: nat := 0x1_0000_0000

  /** `x - 1` on a 32-bit `uint_t`. */
  function Decrement32(x: nat): (r: nat)
    requires x < Uint32Range
    ensures r < Uint32Range
    ensures x > 0 ==> r == x - 1
    ensures x == 0 ==> r == UintMax
  {
    (x + UintMax) % Uint32Range
  }

  // ---------------------------------------------------------------------------
  // SI4 / UI4 / FLT / TMS
  // ---------------------------------------------------------------------------

  /** The four bytes the 32-bit case stores: the fourth store writes `ui1`,
      still the third byte, after the shifted value went into `ui4`. */
  function Bytes4AsWritten(v: nat): (bs: seq<byte>)
    ensures |bs| == 4 && bs[..3] == LittleEndian(v, 4)[..3] && bs[3] == bs[2]
  {
    var b := LittleEndian(v, 4);
    [b[0], b[1], b[2], b[2]]
  }

  /** The space left after the 32-bit case: it checks for 4 bytes but
      subtracts `sizeof (uint64_t)`. */
  function Budget4AsWritten(space: nat): (left: nat)
    requires 4 <= space < Uint32Range
    ensures space >= 8 ==> left == space - 8
    ensures space < 8 ==> left == space + Uint32Range - 8
  {
    (space + Uint32Range - 8) % Uint32Range
  }

  /** 0xDEADBEEF is stored as EF BE AD AD, not EF BE AD DE, and with exactly
      4 bytes of space the budget wraps to 0xFFFFFFFC. */
  lemma Scalar4Defect()
    ensures Bytes4AsWritten(0xDEAD_BEEF) == [0xEF, 0xBE, 0xAD, 0xAD]
    ensures LittleEndian(0xDEAD_BEEF, 4) == [0xEF, 0xBE, 0xAD, 0xDE]
    ensures FromLittleEndian(Bytes4AsWritten(0xDEAD_BEEF)) != 0xDEAD_BEEF
    ensures Budget4AsWritten(4) == 0xFFFF_FFFC
  {
    assert LittleEndian(0xDEAD_BEEF, 4) == [0xEF, 0xBE, 0xAD, 0xDE];
  }

  // ---------------------------------------------------------------------------
  // TMU / SI8 / UI8 / DBL
  // ---------------------------------------------------------------------------

  /** The eight bytes the 64-bit case stores: the fourth store repeats the
      third byte and truncates the value to its fourth byte, so bytes 5 to 8
      come from a value below 256 and are all zero. */
  function Bytes8AsWritten(v: nat): (bs: seq<byte>)
    ensures |bs| == 8 && bs[..3] == LittleEndian(v, 8)[..3] && bs[3] == bs[2]
    ensures bs[4..] == [0, 0, 0, 0]
  {
    var b := LittleEndian(v, 8);
    var truncated := b[3] as nat;
    var b5 := (truncated / 0x1_0000_0000 % 0x100) as byte;
    var b6 := (truncated / 0x100_0000_0000 % 0x100) as byte;
    var b7 := (truncated / 0x1_0000_0000_0000 % 0x100) as byte;
    [b[0], b[1], b[2], b[2], b5, b6, b7, b7]
  }

  /** 0x0102030405060708 is stored as 08 07 06 06 00 00 00 00. */
  lemma Scalar8Defect()
    ensures Bytes8AsWritten(0x0102_0304_0506_0708) == [8, 7, 6, 6, 0, 0, 0, 0]
    ensures LittleEndian(0x0102_0304_0506_0708, 8) == [8, 7, 6, 5, 4, 3, 2, 1]
  {
    assert LittleEndian(0x0102_0304_0506_0708, 8) == [8, 7, 6, 5, 4, 3, 2, 1];
  }

  // ---------------------------------------------------------------------------
  // SV2 / UV2
  // ---------------------------------------------------------------------------

  /** The 2-byte varint case with its space checks as written: the first
      byte tests `space-- == 0`, the second and third `--space == 0` on a
      32-bit `uint_t`. `None` is `BufferOverflowError`. */
  function Varint2AsWritten(v: nat, space: nat): (r: Option<seq<byte>>)
    requires v < 0x1_0000 && space < Uint32Range
    ensures r.Some? ==> 1 <= |r.value| <= 3
  {
    if space == 0 then None
    else
      var s1 := space - 1;
      if v / 0x80 == 0 then Some([(v % 0x80 + 0x80) as byte])
      else
        var s2 := Decrement32(s1);
        if s2 == 0 then None
        else
          var v2 := v / 0x80;
          if v2 / 0x80 == 0 then Some([(v % 0x80) as byte, (v2 % 0x80 + 0x80) as byte])
          else
            var s3 := Decrement32(s2);
            if s3 == 0 then None
            else Some([(v % 0x80) as byte, (v2 % 0x80) as byte, (v2 / 0x80 % 0x80 + 0x80) as byte])
  }

  /** The bytes are right; only the space checks are off. */
  lemma Varint2AsWrittenBytes(v: nat, space: nat)
    requires v < 0x1_0000 && space < Uint32Range
    ensures Varint2AsWritten(v, space).Some? ==> Varint2AsWritten(v, space).value == Varint(v)
  {
    if v >= 0x80 {
      assert Varint(v) == [(v % 0x80) as byte] + Varint(v / 0x80);
      if v / 0x80 >= 0x80 {
        assert Varint(v / 0x80) == [(v / 0x80 % 0x80) as byte] + Varint(v / 0x80 / 0x80);
        assert v / 0x80 / 0x80 < 0x80;
      }
    }
  }

  /** With one byte of space the two bytes of 128 are written; with two
      bytes of space they are refused. The intended check writes them
      exactly when two bytes are left. */
  lemma Varint2BudgetDefect()
    ensures Varint2AsWritten(128, 1) == Some([0x00, 0x81])
    ensures Varint2AsWritten(128, 2) == None
    ensures StepOf(Encoding(Param(UV2, 0, 0), Int(128), 0), 2) == Emit([0x00, 0x81])
    ensures StepOf(Encoding(Param(UV2, 0, 0), Int(128), 0), 1) == Fail(BufferOverflowError)
  {
    assert Varint(128) == [0x00, 0x81];
  }

  // ---------------------------------------------------------------------------
  // SV8 / UV8
  // ---------------------------------------------------------------------------

  /** The 8-byte varint loop as written: `goto WriteVarint8` jumps back above
      `ui2 = 8`, so each pass starts the byte counter afresh from `counter`
      and the full-byte branch is never reached from the top. */
  function Varint8AsWritten(v: nat, counter: nat): (bs: seq<byte>)
    ensures |bs| >= 1
  {
    if counter == 1 then [(v % 0x100) as byte]
    else if v < 0x80 then [(v + 0x80) as byte]
    else [(v % 0x80) as byte] + Varint8AsWritten(v / 0x80, 8)
  }

  /** Started with `ui2 = 8`, the loop as written is the plain varint. */
  lemma {:induction false} Varint8AsWrittenIsVarint(v: nat)
    ensures Varint8AsWritten(v, 8) == Varint(v)
  {
    if v >= 0x80 {
      Varint8AsWrittenIsVarint(v / 0x80);
    }
  }

  /** 2^63 takes ten bytes as written, one more than the nine the space
      check allows for and the capped encoding uses. */
  lemma Varint8CounterDefect()
    ensures |Varint8AsWritten(0x8000_0000_0000_0000, 8)| == 10
    ensures |Varint8(0x8000_0000_0000_0000, 8)| == 9
  {
    Varint8AsWrittenIsVarint(0x8000_0000_0000_0000);
    assert Pow128(9) == 0x8000_0000_0000_0000 by { Pow128Literals(); }
    assert Pow128(10) == 0x40_0000_0000_0000_0000 by { Pow128Literals(); }
    VarintLength(0x8000_0000_0000_0000, 10);
    Varint8FullLength(0x8000_0000_0000_0000, 8);
  }

  lemma Pow128Literals()
    ensures Pow128(8) == 0x100_0000_0000_0000
    ensures Pow128(9) == 0x8000_0000_0000_0000
    ensures Pow128(10) == 0x40_0000_0000_0000_0000
  {
    assert Pow128(4) == 0x1000_0000;
    assert Pow128(8) == 0x1000_0000 * 0x1000_0000;
  }

  /** From `128^groups` up the capped encoding uses every group and the
      full byte. */
  lemma {:induction false} Varint8FullLength(v: nat, groups: nat)
    requires Pow128(groups) <= v
    ensures |Varint8(v, groups)| == groups + 1
  {
    if groups > 0 {
      assert v >= 0x80 by { PowGrows(groups); }
      assert Pow128(groups - 1) <= v / 0x80;
      Varint8FullLength(v / 0x80, groups - 1);
    }
  }

  // ---------------------------------------------------------------------------
  // SOH
  // ---------------------------------------------------------------------------

  /** The space the string case checks for: one byte per character and one
      for the first terminator; `SOH` then stores a second terminator
      without a check. */
  function StringNeedAsWritten(data: seq<byte>): (need: nat)
    requires Nul in data
    ensures need == |Chars(data)| + 1
  {
    |Chars(data)| + 1
  }

  /** For the address string "a", `SOH` checks for 2 bytes and stores 3. */
  lemma AddressStringDefect()
    ensures StringNeedAsWritten([0x61, Nul]) == 2
    ensures |Encoding(Param(SOH, 0, 0), Bytes([0x61, Nul]), 0).bytes| == 3
    ensures Encoding(Param(SOH, 0, 0), Bytes([0x61, Nul]), 0).need == 3
  {
    assert Chars([0x61, Nul]) == [0x61];
  }

  // ---------------------------------------------------------------------------
  // WriteBlock
  // ---------------------------------------------------------------------------

  /** The ring offsets the block copy stores to as written when it takes
      the straight path: that path is chosen by `start + length >= end`,
      which tests the read cursor rather than `stop`, and it never wraps.
      `None` is the wrapping path, which this model does not follow. */
  function BlockOffsetsAsWritten(start: nat, stop: nat, size: nat, length: nat): (r: Option<seq<nat>>)
    ensures r.Some? ==> |r.value| == length && forall j :: 0 <= j < length ==> r.value[j] == stop + j
  {
    if start + length >= size then None else Some(seq(length, j => stop + j))
  }

  /** The space check of the block copy as written: it compares each length
      with the space but never takes the length off it. */
  predicate BlockBudgetAsWritten(space: nat, lengths: seq<nat>)
  {
    forall k :: 0 <= k < |lengths| ==> lengths[k] <= space
  }

  /** A ring of 16 bytes with `start` 6 and `stop` 12 has 9 bytes of slot
      space, 8 once the write has reserved its byte, so a 6-byte block passes
      the space check. As written it is stored at offsets 12 to 17, the last
      two past the ring, where the intended copy wraps to 12, 13, 14, 15, 0,
      1. Two such blocks both pass the check against those 8 bytes, where
      the intended walk stops at the second. */
  lemma BlockDefects()
    ensures SlotSpace(6, 12, 16) - 1 == 8 && !(SlotSpace(6, 12, 16) - 1 < 6)
    ensures BlockOffsetsAsWritten(6, 12, 16, 6) == Some([12, 13, 14, 15, 16, 17])
    ensures [Wrap(12, 16), Wrap(13, 16), Wrap(14, 16), Wrap(15, 16), Wrap(16, 16), Wrap(17, 16)]
      == [12, 13, 14, 15, 0, 1]
    ensures BlockBudgetAsWritten(8, [6, 6])
    ensures WriteFrom([Produce([1, 2, 3, 4, 5, 6], 6), Produce([7, 8, 9, 10, 11, 12], 6)], 0, 8)
      == Failed(BufferOverflowError, Some(1))
  {
    assert seq(6, j => 12 + j) == [12, 13, 14, 15, 16, 17];
    var encs: seq<Encoded> := [Produce([1, 2, 3, 4, 5, 6], 6), Produce([7, 8, 9, 10, 11, 12], 6)];
    assert WriteFrom(encs, 1, 2) == Failed(BufferOverflowError, Some(1));
  }

  // ---------------------------------------------------------------------------
  // The header's stop
  // ---------------------------------------------------------------------------

  /** The ring after two successful `BoutWrite` calls as written. Each call
      advances only its local `stop`, which it took from the header, and
      returns without storing it back, so the second call starts from the
      same offset as the first. */
  ghost function TwoWritesAsWritten(buf: seq<byte>, stop: nat, size: nat, first: seq<byte>, second: seq<byte>): (r: seq<byte>)
    requires stop < size && HeaderSize + size <= |buf| && |first| < size && |second| < size
    ensures |r| == |buf|
  {
    RingWrite(RingWrite(buf, stop, size, first), stop, size, second)
  }

  /** The ring after two successful writes that each store `stop` back, as
      `BoutWrite` does in this model: the second starts past the first. */
  ghost function TwoWrites(buf: seq<byte>, stop: nat, size: nat, first: seq<byte>, second: seq<byte>): (r: seq<byte>)
    requires stop < size && HeaderSize + size <= |buf| && |first| + |second| < size
    ensures |r| == |buf|
  {
    RingWrite(RingWrite(buf, stop, size, first), Wrap(stop + |first|, size), size, second)
  }

  /** As written, the second write lands on the first: the byte at the
      header's `stop` is the second write's first byte, and the first write's
      first byte is lost. With `stop` stored back both writes survive, one
      after the other. */
  lemma StopNotStoredDefect(buf: seq<byte>, stop: nat, size: nat, first: seq<byte>, second: seq<byte>)
    requires stop < size && HeaderSize + size <= |buf| && |first| + |second| < size
    requires first != [] && second != [] && first[0] != second[0]
    ensures TwoWritesAsWritten(buf, stop, size, first, second)[HeaderSize + stop] == second[0]
    ensures TwoWritesAsWritten(buf, stop, size, first, second)[HeaderSize + stop] != first[0]
    ensures Holds(TwoWrites(buf, stop, size, first, second), stop, size, first + second)
  {
    RingWriteEffect(RingWrite(buf, stop, size, first), stop, size, second);
    assert Wrap(stop + 0, size) == stop;
    RingWriteAppend(buf, stop, size, first, second);
    RingWriteEffect(buf, stop, size, first + second);
  }
}
