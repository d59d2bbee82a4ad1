/** Bounded fill, copy and compare over raw memory (kabuki/f2/f2_socket.cc).

    Memory is an `array<byte>` and a `char*` into it an index. A region that
    is only read is passed as a sequence value. Pointers are 64 bits wide, so
    `2 * sizeof(void*) + 1` is 17. */
module Socket {
  import opened Types

  const PointerSize := 8
  /** Below this many bytes `SocketFill` and `SocketCopy` take the byte loop. */
  const ShortLimit := 2 * PointerSize + 1

  /** `SizeOf(begin, end)`: the signed distance from `begin` to `end`. */
  function SizeOf(begin: nat, end: nat): (size: int)
    ensures begin + size == end
    ensures size >= 0 <==> begin <= end
  {
    end - begin
  }

  // ---------------------------------------------------------------------------
  // FillWord
  // ---------------------------------------------------------------------------

  /** `uintptr_t value = fill_char;` converts a signed char, so bytes from 0x80
      up are sign-extended. */
  function Widen32(fillChar: byte): bv32
  {
    var c := fillChar as bv8 as bv32;
    if fillChar < 0x80 then c else c | 0xFFFF_FF00
  }

  function Widen64(fillChar: byte): bv64
  {
    var c := fillChar as bv8 as bv64;
    if fillChar < 0x80 then c else c | 0xFFFF_FFFF_FFFF_FF00
  }

  /** `FillWord` on a 32-bit target: a character below 0x80 fills all four
      bytes of the word. */
  function FillWord32(fillChar: byte): (w: bv32)
    ensures fillChar < 0x80 ==> w == fillChar as bv8 as bv32 * 0x0101_0101
  {
    var v := Widen32(fillChar);
    v | (v << 8) | (v << 16) | (v << 24)
  }

  /** `FillWord` on a 64-bit target as written: with the `<< 40` term missing,
      byte 5 of the word stays clear. */
  function FillWord64(fillChar: byte): (w: bv64)
    ensures fillChar < 0x80 ==> w == fillChar as bv8 as bv64 * 0x0101_0001_0101_0101
  {
    var v := Widen64(fillChar);
    v | (v << 8) | (v << 16) | (v << 24) | (v << 32) | (v << 48) | (v << 56)
  }

  /** The word `FillWord` is meant to build: the fill byte in every byte. */
  function FillWordIntended(fillChar: byte): (w: bv64)
    ensures w == fillChar as bv8 as bv64 * 0x0101_0101_0101_0101
  {
    var v := fillChar as bv8 as bv64;
    v | (v << 8) | (v << 16) | (v << 24) | (v << 32) | (v << 40) | (v << 48) | (v << 56)
  }

  /** The 64-bit word as written misses byte 5, and a fill byte from 0x80 up
      is sign-extended over the upper bytes of the 32-bit word. */
  lemma FillWordDefects()
    ensures FillWord64(0x11) == 0x1111_0011_1111_1111
    ensures FillWordIntended(0x11) == 0x1111_1111_1111_1111
    ensures FillWord32(0x80) == 0xFFFF_FF80
    ensures FillWordIntended(0x80) & 0xFFFF_FFFF == 0x8080_8080
  {
  }

  // ---------------------------------------------------------------------------
  // SocketFill, SocketWipe
  // ---------------------------------------------------------------------------

  /** `SocketFill(cursor, end, byte_count, fill_char)`: when `byte_count` bytes
      fit between `cursor` and `end`, sets exactly those bytes to `fillChar`
      and returns the position after them; otherwise returns null and writes
      nothing. */
  method SocketFill(mem: array<byte>, cursor: nat, end: nat, byteCount: int, fillChar: byte)
    returns (r: Option<nat>)
    requires cursor <= mem.Length && end <= mem.Length
    requires byteCount > 0
    modifies mem
    ensures r.None? <==> end - cursor < byteCount
    ensures r.None? ==> mem[..] == old(mem[..])
    ensures r.Some? ==>
      && r.value == cursor + byteCount
      && (forall k :: cursor <= k < cursor + byteCount ==> mem[k] == fillChar)
      && (forall k :: 0 <= k < mem.Length && !(cursor <= k < cursor + byteCount) ==> mem[k] == old(mem[k]))
  {
    if end - cursor < byteCount {
      return None;
    }
    var stop := cursor + byteCount;
    var p := cursor;
    while p < stop
      invariant cursor <= p <= stop
      invariant forall k :: cursor <= k < p ==> mem[k] == fillChar
      invariant forall k :: 0 <= k < mem.Length && !(cursor <= k < p) ==> mem[k] == old(mem[k])
    {
      mem[p] := fillChar;
      p := p + 1;
    }
    return Some(p);
  }

  /** Byte `i` of a little-endian word. */
  function WordByte(w: bv64, i: nat): byte
    requires i < 8
  {
    var b := match i
      case 0 => w
      case 1 => w >> 8
      case 2 => w >> 16
      case 3 => w >> 24
      case 4 => w >> 32
      case 5 => w >> 40
      case 6 => w >> 48
      case _ => w >> 56;
    ((b & 0xFF) as bv8) as byte
  }

  /** The OR of shifts in `FillWord64` on a widened character `v`, byte by
      byte: byte 0 is the character and byte 5 only what the sign extension
      put there. */
  lemma ShiftedBytes(c: bv64, v: bv64)
    requires c < 0x100
    requires v == if c < 0x80 then c else c | 0xFFFF_FFFF_FFFF_FF00
    ensures var w := v | (v << 8) | (v << 16) | (v << 24) | (v << 32) | (v << 48) | (v << 56);
      && w & 0xFF == c
      && (c < 0x80 ==>
          && (w >> 8) & 0xFF == c && (w >> 16) & 0xFF == c && (w >> 24) & 0xFF == c
          && (w >> 32) & 0xFF == c && (w >> 40) & 0xFF == 0
          && (w >> 48) & 0xFF == c && (w >> 56) & 0xFF == c)
      && (c >= 0x80 ==>
          && (w >> 8) & 0xFF == 0xFF && (w >> 16) & 0xFF == 0xFF && (w >> 24) & 0xFF == 0xFF
          && (w >> 32) & 0xFF == 0xFF && (w >> 40) & 0xFF == 0xFF
          && (w >> 48) & 0xFF == 0xFF && (w >> 56) & 0xFF == 0xFF)
  {
  }

  /** The bytes of the 64-bit `FillWord` as written: byte 0 is the fill byte;
      from 0x80 up the sign extension sets every other byte to 0xFF, and
      below it every other byte is the fill byte except byte 5, which the
      missing `<< 40` leaves 0. */
  lemma FillWord64Bytes(fillChar: byte)
    ensures forall i :: 0 <= i < 8 ==> WordByte(FillWord64(fillChar), i) == FilledWordByte(fillChar, i)
  {
    var c := fillChar as bv8 as bv64;
    assert c as bv8 as byte == fillChar;
    assert fillChar < 0x80 <==> c < 0x80;
    var v := Widen64(fillChar);
    ShiftedBytes(c, v);
    forall i | 0 <= i < 8
      ensures WordByte(FillWord64(fillChar), i) == FilledWordByte(fillChar, i)
    {
      assert i == 0 || i == 1 || i == 2 || i == 3 || i == 4 || i == 5 || i == 6 || i == 7;
    }
  }

  /** Byte `i` of every word the aligned path stores, by `FillWord64Bytes`. */
  function FilledWordByte(fillChar: byte, i: nat): byte
    requires i < 8
  {
    if i == 0 then fillChar
    else if fillChar >= 0x80 then 0xFF
    else if i == 5 then 0
    else fillChar
  }

  /** The byte-level effect of the word-aligned path of `SocketFill` as
      written on a little-endian target. The head loop fills `[cursor, up)`,
      where `up` is the cursor rounded up to a word. The word loop stores the
      as-written `FillWord64` over `[up, aligned)`, where `aligned` is `end`
      rounded down to a word. The tail loop stores through `end` before
      decrementing it and so covers `(aligned, end]`. */
  function FillAsWritten(s: seq<byte>, cursor: nat, up: nat, end: nat, aligned: nat, fillChar: byte): (t: seq<byte>)
    requires cursor <= up <= aligned <= end < |s|
    requires up % PointerSize == 0 && aligned % PointerSize == 0
    ensures |t| == |s|
    ensures forall k :: cursor <= k < up || aligned < k <= end ==> t[k] == fillChar
    ensures forall k :: up <= k < aligned ==> t[k] == FilledWordByte(fillChar, k % PointerSize)
    ensures forall k :: 0 <= k < |s| && !(cursor <= k < aligned || aligned < k <= end) ==> t[k] == s[k]
  {
    FillWord64Bytes(fillChar);
    seq(|s|, k requires 0 <= k < |s| =>
      if cursor <= k < up || aligned < k <= end then fillChar
      else if up <= k < aligned then WordByte(FillWord64(fillChar), k % PointerSize)
      else s[k])
  }

  /** When the region does not end on a word, the aligned path leaves the
      byte at `aligned` unfilled and overwrites the byte just past the region;
      and byte 5 of every stored word is not the fill byte. */
  lemma FillAsWrittenOffByOne(s: seq<byte>, cursor: nat, up: nat, end: nat, aligned: nat, fillChar: byte)
    requires cursor <= up <= aligned < end < |s|
    requires up % PointerSize == 0 && aligned % PointerSize == 0
    requires s[aligned] != fillChar
    ensures FillAsWritten(s, cursor, up, end, aligned, fillChar)[aligned] != fillChar
    ensures FillAsWritten(s, cursor, up, end, aligned, fillChar)[end] == fillChar
    ensures up < aligned && fillChar != 0 && fillChar != 0xFF ==>
      FillAsWritten(s, cursor, up, end, aligned, fillChar)[up + 5] != fillChar
  {
    if up < aligned {
      assert up + PointerSize <= aligned;
      assert (up + 5) % PointerSize == 5;
    }
  }

  /** `SocketFill(cursor, count, fill_char)`: the region is the `count` bytes
      at `cursor`, so it always fits. */
  method SocketFillCount(mem: array<byte>, cursor: nat, count: int, fillChar: byte) returns (r: Option<nat>)
    requires count > 0 && cursor + count <= mem.Length
    modifies mem
    ensures r == Some(cursor + count)
    ensures forall k :: cursor <= k < cursor + count ==> mem[k] == fillChar
    ensures forall k :: 0 <= k < mem.Length && !(cursor <= k < cursor + count) ==> mem[k] == old(mem[k])
  {
    r := SocketFill(mem, cursor, cursor + count, count, fillChar);
  }

  /** `SocketWipe`: zero-fills `count` bytes at `cursor` and reports whether
      they fit before `end`. */
  method SocketWipe(mem: array<byte>, cursor: nat, end: nat, count: int) returns (ok: bool)
    requires cursor <= mem.Length && end <= mem.Length
    requires count > 0
    modifies mem
    ensures ok <==> end - cursor >= count
    ensures !ok ==> mem[..] == old(mem[..])
    ensures ok ==>
      && (forall k :: cursor <= k < cursor + count ==> mem[k] == 0)
      && (forall k :: 0 <= k < mem.Length && !(cursor <= k < cursor + count) ==> mem[k] == old(mem[k]))
  {
    var r := SocketFill(mem, cursor, end, count, 0);
    ok := r != None;
  }

  // ---------------------------------------------------------------------------
  // SocketCopy
  // ---------------------------------------------------------------------------

  /** `SocketCopy(begin, size, read, read_size)`: when the destination is at
      least `readSize` bytes, copies the first `readSize` bytes of `read` to
      `begin`, in order, and leaves every other byte alone. The short path
      returns the end of the copy, the word path the end of the destination.
      A destination smaller than `readSize` gives null and no write. */
  method SocketCopy(mem: array<byte>, begin: nat, size: int, read: seq<byte>, readSize: int)
    returns (r: Option<nat>)
    requires size > 0 && readSize > 0
    requires begin + size <= mem.Length && readSize <= |read|
    modifies mem
    ensures r.None? <==> size < readSize
    ensures r.None? ==> mem[..] == old(mem[..])
    ensures r.Some? ==>
      && r.value == (if readSize < ShortLimit then begin + readSize else begin + size)
      && mem[begin..begin + readSize] == read[..readSize]
      && (forall k :: 0 <= k < mem.Length && !(begin <= k < begin + readSize) ==> mem[k] == old(mem[k]))
  {
    if size < readSize {
      return None;
    }
    var cursor := begin;
    var start := 0;
    while start < readSize
      invariant 0 <= start <= readSize && cursor == begin + start
      invariant forall k :: 0 <= k < start ==> mem[begin + k] == read[k]
      invariant forall k :: 0 <= k < mem.Length && !(begin <= k < cursor) ==> mem[k] == old(mem[k])
    {
      mem[cursor] := read[start];
      cursor := cursor + 1;
      start := start + 1;
    }
    assert forall k :: 0 <= k < readSize ==> mem[begin..begin + readSize][k] == read[k];
    if readSize < ShortLimit {
      return Some(cursor);
    }
    return Some(begin + size);
  }

  /** The byte-level effect of the long path of `SocketCopy` as written, with
      the source region at the start of `src` and what follows it in memory
      after it. The head and word loops copy `src[k - begin]` into every `k`
      below `aligned`, the destination end rounded down to a word: that runs
      to the end of the destination, not of the source. The tail loop stores
      through `end_ptr` and `stop_ptr` before decrementing them, so it covers
      `(aligned, begin + size]` from the byte at `read_size` down. */
  function CopyAsWritten(s: seq<byte>, begin: nat, size: nat, src: seq<byte>, readSize: nat, aligned: nat): (t: seq<byte>)
    requires ShortLimit <= readSize <= size && readSize < |src| && size <= |src|
    requires begin <= aligned <= begin + size < |s| && begin + size - aligned < PointerSize
    ensures |t| == |s|
    ensures aligned < begin + size ==> t[begin + size] == src[readSize] && t[aligned] == s[aligned]
    ensures forall k :: begin <= k < aligned ==> t[k] == src[k - begin]
    ensures forall k :: 0 <= k < |s| && !(begin <= k <= begin + size) ==> t[k] == s[k]
  {
    seq(|s|, k requires 0 <= k < |s| =>
      if begin <= k < aligned then src[k - begin]
      else if aligned < k <= begin + size then src[readSize - (begin + size - k)]
      else s[k])
  }

  /** Two inputs on which the long path as written differs from a copy of
      `read_size` bytes. With a 20-byte destination and 20 bytes to copy, the
      byte at 16 keeps its old value and the byte at 20, past the
      destination, is overwritten with the byte past the source. With a
      24-byte destination and 17 bytes to copy, bytes 17 to 23 come from past
      the source. */
  lemma CopyAsWrittenCounterexample()
    ensures var s: seq<byte> := seq(32, k => 0);
      var src: seq<byte> := seq(32, k requires 0 <= k < 32 => (k + 1) as byte);
      var t := CopyAsWritten(s, 0, 20, src, 20, 16);
      t[16] == 0 && src[16] == 17 && t[20] == 21
    ensures var s: seq<byte> := seq(32, k => 0);
      var src: seq<byte> := seq(32, k requires 0 <= k < 32 => (k + 1) as byte);
      var t := CopyAsWritten(s, 0, 24, src, 17, 24);
      t[17..24] == src[17..24] && t[17] == 18
  {
    var s: seq<byte> := seq(32, k => 0);
    var src: seq<byte> := seq(32, k requires 0 <= k < 32 => (k + 1) as byte);
    assert src[16] == 17 && src[17] == 18 && src[20] == 21;
  }

  // ---------------------------------------------------------------------------
  // SocketCompare
  // ---------------------------------------------------------------------------

  /** `SocketCompare`: true exactly when both regions have the same size and
      the same bytes. */
  method SocketCompare(a: seq<byte>, sizeA: int, b: seq<byte>, sizeB: int) returns (equal: bool)
    requires sizeA == sizeB ==> sizeA <= |a| && sizeB <= |b|
    ensures equal <==> sizeA == sizeB && (sizeA <= 0 || a[..sizeA] == b[..sizeB])
  {
    if sizeA != sizeB {
      return false;
    }
    var i := 0;
    while i < sizeA
      invariant 0 <= i <= (if sizeA > 0 then sizeA else 0)
      invariant a[..i] == b[..i]
    {
      if a[i] != b[i] {
        return false;
      }
      i := i + 1;
      assert a[..i] == a[..i - 1] + [a[i - 1]];
      assert b[..i] == b[..i - 1] + [b[i - 1]];
    }
    return true;
  }

  /** The comparison loop as written: the second byte is read through `end_a`,
      which moves with `cursor_a`, so each byte of `a` is compared with the
      byte `size` places after it and the loop bound never comes closer, so
      it never reports a non-empty region equal. `None` is a read past the
      end of `mem`. */
  function CompareLoopAsWritten(mem: seq<byte>, cursorA: nat, endA: nat): (r: Option<bool>)
    ensures r == Some(true) <==> cursorA >= endA
    decreases |mem| - cursorA
  {
    if cursorA >= endA then Some(true)
    else if endA >= |mem| then None
    else if mem[cursorA] != mem[endA] then Some(false)
    else CompareLoopAsWritten(mem, cursorA + 1, endA + 1)
  }

  /** `SocketCompare` as written, over one memory holding both regions: it
      reports two regions equal only when both are empty. */
  function SocketCompareAsWritten(mem: seq<byte>, beginA: nat, sizeA: int, beginB: nat, sizeB: int): (r: Option<bool>)
    ensures r == Some(true) <==> sizeA == sizeB && sizeA <= 0
  {
    if sizeA != sizeB then Some(false)
    else if sizeA <= 0 then Some(true)
    else CompareLoopAsWritten(mem, beginA, beginA + sizeA)
  }

  /** Two equal one-byte regions side by side: the intended result is true,
      the code as written runs off the end of memory. */
  lemma SocketCompareAsWrittenCounterexample()
    ensures var mem: seq<byte> := [7, 7];
      mem[0..1] == mem[1..2] && SocketCompareAsWritten(mem, 0, 1, 1, 1) == None
  {
    var mem: seq<byte> := [7, 7];
    assert CompareLoopAsWritten(mem, 0, 1) == CompareLoopAsWritten(mem, 1, 2);
  }
}
