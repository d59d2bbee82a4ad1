/** The B-Output ring buffer and its typed writer
    (source/kabuki/script/impl/script_bout.cc).

    The caller's region is an `array<byte>`: the four-word header comes
    first and the ring of `size` bytes follows it, so ring offset `p` is
    `buffer[HeaderSize + p]`. The header words themselves are the fields
    of the `Bout` object. */
module Bout {
  import opened Types
  import opened Utils
  import opened BoutTypes
  import opened BoutCodec

  // ---------------------------------------------------------------------------
  // State names
  // ---------------------------------------------------------------------------

  /** The name of each `Bout::State` enumerator. */
  function StateName(s: State): string
  {
    match s
    case WritingState => "WritingState"
    case LockedState => "LockedState"
  }

  /** `BoutStateString`: the name of the state, with every value from
      `LockedState` up read as `LockedState`. */
  function BoutStateString(state: nat): (text: string)
    ensures state == StateCode(WritingState) ==> text == StateName(WritingState)
    ensures state >= StateCode(LockedState) ==> text == StateName(LockedState)
  {
    var strings := ["WritingState", "LockedState"];
    if state >= 1 then strings[1] else strings[state]
  }

  /** `BoutState(byte)`: the enum overload applied to the byte's value. */
  function BoutStateOfByte(state: byte): (text: string)
    ensures text == StateName(if state == 0 then WritingState else LockedState)
  {
    BoutStateString(state as nat)
  }

  // ---------------------------------------------------------------------------
  // Ring arithmetic
  // ---------------------------------------------------------------------------

  /** One step past the end wraps by subtracting `size` once. */
  function Wrap(p: nat, size: nat): nat
  {
    if p >= size then p - size else p
  }

  /** How far forward `to` lies from `from` around a ring of `size`. */
  function Dist(from: nat, to: nat, size: nat): nat
    requires from < size && to < size
  {
    if to >= from then to - from else to + size - from
  }

  lemma DistOfWrap(from: nat, j: nat, size: nat)
    requires from < size && j < size
    ensures Wrap(from + j, size) < size
    ensures Dist(from, Wrap(from + j, size), size) == j
  {
  }

  lemma WrapTwice(from: nat, a: nat, m: nat, size: nat)
    requires from < size && a + m < size
    ensures Wrap(Wrap(from + a, size) + m, size) == Wrap(from + a + m, size)
  {
  }

  lemma DistShift(from: nat, a: nat, p: nat, size: nat)
    requires from < size && a < size && p < size
    ensures Dist(from, p, size) >= a ==> Dist(Wrap(from + a, size), p, size) == Dist(from, p, size) - a
    ensures Dist(from, p, size) < a ==> Dist(Wrap(from + a, size), p, size) >= size - a
  {
  }

  /** `bytes` sit in the ring of `buf` from offset `at` on, wrapping. */
  ghost predicate Holds(buf: seq<byte>, at: nat, size: nat, bytes: seq<byte>)
    requires at < size && HeaderSize + size <= |buf|
  {
    forall j :: 0 <= j < |bytes| && j < size ==> buf[HeaderSize + Wrap(at + j, size)] == bytes[j]
  }

  /** `buf` and `buf0` differ at most in the `n` ring offsets from `at` on. */
  ghost predicate SameOutside(buf: seq<byte>, buf0: seq<byte>, at: nat, size: nat, n: nat)
    requires at < size && HeaderSize + size <= |buf| == |buf0|
  {
    forall k :: 0 <= k < |buf| && buf[k] != buf0[k] ==>
      && HeaderSize <= k < HeaderSize + size
      && Dist(at, k - HeaderSize, size) < n
  }

  /** Storing byte `i` at its offset extends the run by one. */
  lemma RingStep(before: seq<byte>, buf0: seq<byte>, at: nat, size: nat, bytes: seq<byte>, i: nat)
    requires at < size && HeaderSize + size <= |before| == |buf0|
    requires i < |bytes| < size
    requires Holds(before, at, size, bytes[..i]) && SameOutside(before, buf0, at, size, i)
    ensures
      var after := before[HeaderSize + Wrap(at + i, size) := bytes[i]];
      Holds(after, at, size, bytes[..i + 1]) && SameOutside(after, buf0, at, size, i + 1)
  {
    var after := before[HeaderSize + Wrap(at + i, size) := bytes[i]];
    var run := bytes[..i + 1];
    forall j | 0 <= j < i + 1
      ensures after[HeaderSize + Wrap(at + j, size)] == run[j]
    {
      DistOfWrap(at, j, size);
      DistOfWrap(at, i, size);
      if j < i {
        assert before[HeaderSize + Wrap(at + j, size)] == bytes[..i][j];
      }
    }
    forall k | 0 <= k < |after| && after[k] != buf0[k]
      ensures HeaderSize <= k < HeaderSize + size && Dist(at, k - HeaderSize, size) < i + 1
    {
      DistOfWrap(at, i, size);
    }
  }

  /** The ring of `buf` after storing `bytes` from offset `at` on, one byte
      at a time, stepping past the end back to offset 0. */
  ghost function RingWrite(buf: seq<byte>, at: nat, size: nat, bytes: seq<byte>): (r: seq<byte>)
    requires at < size && HeaderSize + size <= |buf| && |bytes| <= size
    ensures |r| == |buf|
  {
    if bytes == [] then buf
    else
      var n := |bytes| - 1;
      RingWrite(buf, at, size, bytes[..n])[HeaderSize + Wrap(at + n, size) := bytes[n]]
  }

  /** What `RingWrite` does: the bytes sit from `at` on, and nothing outside
      those `|bytes|` offsets changes. */
  lemma {:induction false} RingWriteEffect(buf: seq<byte>, at: nat, size: nat, bytes: seq<byte>)
    requires at < size && HeaderSize + size <= |buf| && |bytes| < size
    ensures Holds(RingWrite(buf, at, size, bytes), at, size, bytes)
    ensures SameOutside(RingWrite(buf, at, size, bytes), buf, at, size, |bytes|)
    decreases |bytes|
  {
    if bytes != [] {
      var n := |bytes| - 1;
      RingWriteEffect(buf, at, size, bytes[..n]);
      RingStep(RingWrite(buf, at, size, bytes[..n]), buf, at, size, bytes, n);
      assert bytes[..n + 1] == bytes;
    }
  }

  /** Two writes back to back are one write of both byte runs. */
  lemma {:induction false} RingWriteAppend(buf: seq<byte>, at: nat, size: nat, w: seq<byte>, bytes: seq<byte>)
    requires at < size && HeaderSize + size <= |buf| && |w| + |bytes| < size
    ensures Wrap(at + |w|, size) < size
    ensures RingWrite(buf, at, size, w + bytes)
      == RingWrite(RingWrite(buf, at, size, w), Wrap(at + |w|, size), size, bytes)
    decreases |bytes|
  {
    if bytes == [] {
      assert w + bytes == w;
    } else {
      var n := |bytes| - 1;
      RingWriteAppend(buf, at, size, w, bytes[..n]);
      assert (w + bytes)[..|w| + n] == w + bytes[..n];
      WrapTwice(at, |w|, n, size);
    }
  }

  /** A region that changed in at most `n` offsets from `at` changed in at
      most `m` of them for any `m >= n`. */
  lemma SameOutsideWiden(buf: seq<byte>, buf0: seq<byte>, at: nat, size: nat, n: nat, m: nat)
    requires at < size && HeaderSize + size <= |buf| == |buf0| && n <= m
    requires SameOutside(buf, buf0, at, size, n)
    ensures SameOutside(buf, buf0, at, size, m)
  {
  }

  /** `SlotLength`: the bytes between `start` and `stop`. Its body is not
      part of this model; it is taken as the forward distance. */
  function SlotLength(start: nat, stop: nat, size: nat): (length: nat)
    requires start < size && stop < size
    ensures length < size
  {
    Dist(start, stop, size)
  }

  /** `SlotSpace`: the bytes that can still be written. Its body is not part
      of this model; it is taken as the classic ring that keeps one byte
      open, so a full ring has no space. */
  function SlotSpace(start: nat, stop: nat, size: nat): (space: nat)
    requires start < size && stop < size
    ensures space + SlotLength(start, stop, size) == size - 1
  {
    size - 1 - Dist(start, stop, size)
  }

  // ---------------------------------------------------------------------------
  // The ring object
  // ---------------------------------------------------------------------------

  class Bout {
    var size: nat
    var start: nat
    var stop: nat
    var read: nat
    const buffer: array<byte>

    ghost predicate Valid()
      reads this
    {
      1 <= size && HeaderSize + size <= buffer.Length
      && start < size && stop < size && read < size
    }

    /** The header `BoutInit` writes over a region of `regionSize` bytes. */
    constructor Init(region: array<byte>, regionSize: nat)
      requires HeaderSize < regionSize <= region.Length
      ensures Valid()
      ensures buffer == region && size == regionSize - HeaderSize
      ensures start == 0 && stop == 0 && read == 0
    {
      buffer := region;
      size := regionSize - HeaderSize;
      start := 0;
      stop := 0;
      read := 0;
    }

    /** Stores `bytes` at ring offsets `pos`, `pos + 1`, ..., stepping past
        the end back to offset 0, and folds each byte into the hash. Only
        the `|bytes|` offsets from `pos` on change. */
    method WriteBytes(pos: nat, hash: uint16, bytes: seq<byte>) returns (newPos: nat, newHash: uint16)
      requires Valid() && pos < size && |bytes| < size
      modifies buffer
      ensures newPos == Wrap(pos + |bytes|, size) && newPos < size
      ensures newHash == HashOf(bytes, hash)
      ensures buffer[..] == RingWrite(old(buffer[..]), pos, size, bytes)
    {
      newPos, newHash := pos, hash;
      var i := 0;
      while i < |bytes|
        invariant 0 <= i <= |bytes|
        invariant newPos == Wrap(pos + i, size) && newPos < size
        invariant newHash == HashOf(bytes[..i], hash)
        invariant buffer[..] == RingWrite(old(buffer[..]), pos, size, bytes[..i])
      {
        buffer[HeaderSize + newPos] := bytes[i];
        assert bytes[..i + 1][..i] == bytes[..i];
        newPos := newPos + 1;
        if newPos >= size {
          newPos := newPos - size;
        }
        newHash := Hash16(bytes[i], newHash);
        i := i + 1;
      }
      assert bytes[..i] == bytes;
    }
  }

  /** `BoutInit`: null for a null region or one smaller than `minSlotSize`;
      otherwise the header over the region, with the ring the region less
      the four header words and `start`, `stop` and `read` all 0. */
  method BoutInit(region: array?<byte>, regionSize: nat, minSlotSize: nat) returns (bout: Bout?)
    requires minSlotSize > HeaderSize
    requires region != null ==> regionSize <= region.Length
    ensures bout == null <==> regionSize < minSlotSize || region == null
    ensures bout != null ==>
      && fresh(bout) && bout.Valid() && bout.buffer == region
      && bout.size == regionSize - HeaderSize
      && bout.start == 0 && bout.stop == 0 && bout.read == 0
  {
    if regionSize < minSlotSize {
      return null;
    }
    if region == null {
      return null;
    }
    bout := new Bout.Init(region, regionSize);
  }

  /** `BoutSpace`: all ones for a null bout, otherwise the ring's free space;
      together with `BoutBufferLength` it accounts for all but one byte. */
  function BoutSpace(bout: Bout?): (space: nat)
    reads bout
    requires bout != null ==> bout.Valid()
    ensures bout == null ==> space == UintMax
    ensures bout != null ==> space + BoutBufferLength(bout) == bout.size - 1
  {
    if bout == null then UintMax else SlotSpace(bout.start, bout.stop, bout.size)
  }

  /** `BoutBufferLength`: all ones for a null bout, otherwise the bytes
      between `start` and `stop`, fewer than the ring holds. */
  function BoutBufferLength(bout: Bout?): (length: nat)
    reads bout
    requires bout != null ==> bout.Valid()
    ensures bout == null ==> length == UintMax
    ensures bout != null ==> length < bout.size
  {
    if bout == null then UintMax else SlotLength(bout.start, bout.stop, bout.size)
  }

  // ---------------------------------------------------------------------------
  // Parameters and arguments
  // ---------------------------------------------------------------------------

  /** The type tags `BoutWrite` dispatches on; `Unknown` is every other tag. */
  datatype Type =
    | NIL | SOH | STX
    | SI1 | UI1 | BOL | SI2 | UI2 | HLF | SI4 | UI4 | FLT | TMS | TMU | SI8 | UI8 | DBL
    | SV2 | UV2 | SV4 | UV4 | SV8 | UV8
    | AR1 | AR2 | AR4 | AR8 | ESC | FS | GS | RS | US
    | Unknown(tag: nat)

  /** One entry of the parameter list: the type tag and, for arrays, the
      element count word and the size of the element type. */
  datatype Param = Param(kind: Type, count: nat, elementSize: nat)

  /** What `args[index]` points at: nothing, an integer of the parameter's
      width, or bytes (a C string, an array, a sized block). */
  datatype Arg = Null | Int(value: nat) | Bytes(data: seq<byte>)

  /** The byte width of a fixed-size scalar type, 0 for every other type. */
  function Width(t: Type): (n: nat)
    ensures n in {0, 1, 2, 4, 8}
  {
    match t
    case SI1 | UI1 | BOL => 1
    case SI2 | UI2 | HLF => 2
    case SI4 | UI4 | FLT | TMS => 4
    case TMU | SI8 | UI8 | DBL => 8
    case _ => 0
  }

  /** The width of the size word at the front of an `FS`, `GS` or `RS` block. */
  function SizeWordWidth(t: Type): nat
  {
    match t
    case FS => 8
    case GS => 4
    case RS => 2
    case _ => 0
  }

  /** The block length a sized block declares in its own first word, cast to
      the 32-bit `uint_t`. */
  function DeclaredLength(t: Type, data: seq<byte>): nat
    requires SizeWordWidth(t) <= |data|
  {
    FromLittleEndian(data[..SizeWordWidth(t)]) % 0x1_0000_0000
  }

  /** `length = count * SizeOf(array_type)` in 32-bit arithmetic. */
  function ArrayLength(p: Param): nat
  {
    (p.count * p.elementSize) % 0x1_0000_0000
  }

  /** What the source dereferences without checking: a scalar or varint of
      its width, a terminated string, and blocks as long as they claim. */
  predicate ArgFits(p: Param, a: Arg, unitSize: nat)
  {
    match p.kind
    case NIL | ESC | Unknown(_) => true
    case SOH | STX => a.Bytes? && Nul in a.data
    case SV2 => a.Int? && a.value < 0x1_0000
    case UV2 => a.Null? || (a.Int? && a.value < 0x1_0000)
    case SV4 | UV4 => a.Int? && a.value < 0x1_0000_0000
    case SV8 | UV8 => a.Int? && a.value < 0x1_0000_0000_0000_0000
    case AR1 | AR2 | AR4 | AR8 => a.Null? || (a.Bytes? && ArrayLength(p) <= |a.data|)
    case FS | GS | RS =>
      a.Null? || (a.Bytes? && SizeWordWidth(p.kind) <= |a.data| && DeclaredLength(p.kind, a.data) <= |a.data|)
    case US => a.Null? || (a.Bytes? && unitSize <= |a.data|)
    case _ => a.Int? && a.value < Pow256(Width(p.kind))
  }

  predicate WellFormed(params: seq<Param>, args: seq<Arg>, unitSize: nat)
  {
    |params| <= |args| && forall k :: 0 <= k < |params| ==> ArgFits(params[k], args[k], unitSize)
  }

  // ---------------------------------------------------------------------------
  // The encoding, parameter by parameter
  // ---------------------------------------------------------------------------

  /** What one parameter produces whatever the space: its bytes and the
      space its checks demand, or the error raised before any space check. */
  datatype Encoded = Produce(bytes: seq<byte>, need: nat) | Reject(error: Error)

  /** One case of the `BoutWrite` switch. Every case demands the space its
      bytes take, except the 8-byte varints, which demand nine bytes more
      than they write. */
  function Encoding(p: Param, a: Arg, unitSize: nat): (e: Encoded)
    requires ArgFits(p, a, unitSize)
    ensures e.Produce? ==> |e.bytes| <= e.need
    ensures e.Reject? ==> e.error == RoomError
  {
    match p.kind
    case NIL | ESC => Produce([], 0)
    case SOH | STX =>
      var bytes := Chars(a.data) + [Nul] + (if p.kind == SOH then [Nul] else []);
      Produce(bytes, |bytes|)
    case SV2 | SV4 | UV4 => Produce(Varint(a.value), |Varint(a.value)|)
    case UV2 => if a.Null? then Reject(RoomError) else Produce(Varint(a.value), |Varint(a.value)|)
    case SV8 | UV8 =>
      var bytes := Varint8(a.value, 8);
      Produce(bytes, |bytes| + 9)
    case AR1 | AR2 | AR4 | AR8 =>
      if a.Null? then Reject(RoomError) else Produce(a.data[..ArrayLength(p)], ArrayLength(p))
    case FS | GS | RS =>
      if a.Null? then Reject(RoomError)
      else Produce(a.data[..DeclaredLength(p.kind, a.data)], DeclaredLength(p.kind, a.data))
    case US => if a.Null? then Reject(RoomError) else Produce(a.data[..unitSize], unitSize)
    case Unknown(_) => Reject(RoomError)
    case _ => Produce(LittleEndian(a.value, Width(p.kind)), Width(p.kind))
  }

  /** What one parameter does against a budget of `space` bytes. */
  datatype Step = Emit(bytes: seq<byte>) | Fail(error: Error)

  /** An encoding never writes more than the space it demands. */
  predicate Fits(e: Encoded)
  {
    e.Produce? ==> |e.bytes| <= e.need
  }

  function StepOf(e: Encoded, space: int): (s: Step)
    requires Fits(e)
    ensures s.Emit? ==> |s.bytes| <= space
  {
    match e
    case Reject(e) => Fail(e)
    case Produce(bytes, need) => if space < need then Fail(BufferOverflowError) else Emit(bytes)
  }

  /** The outcome of writing a parameter list: the bytes, or the error and
      the index of the parameter that raised it. */
  datatype Outcome = Done(bytes: seq<byte>) | Failed(error: Error, index: Option<nat>)

  function Prepend(w: seq<byte>, o: Outcome): Outcome
  {
    match o
    case Done(bytes) => Done(w + bytes)
    case Failed(_, _) => o
  }

  /** The encoding of each parameter of the list. Each depends on its own
      parameter only, so they can be taken before anything is written. */
  function Encodings(params: seq<Param>, args: seq<Arg>, unitSize: nat): (encs: seq<Encoded>)
    requires WellFormed(params, args, unitSize)
    ensures |encs| == |params|
    ensures forall k :: 0 <= k < |params| ==> encs[k] == Encoding(params[k], args[k], unitSize)
    ensures forall k :: 0 <= k < |encs| ==> Fits(encs[k])
  {
    seq(|params|, k requires 0 <= k < |params| => Encoding(params[k], args[k], unitSize))
  }

  /** Encodings `i..` written against `space`; a failure carries the index
      of the first parameter that failed. */
  function WriteFrom(encs: seq<Encoded>, i: nat, space: int): (o: Outcome)
    requires i <= |encs| && space >= 0 && forall k :: 0 <= k < |encs| ==> Fits(encs[k])
    ensures o.Done? ==> |o.bytes| <= space
    ensures o.Failed? ==> o.index.Some? && i <= o.index.value < |encs|
    decreases |encs| - i
  {
    if i == |encs| then Done([])
    else
      match StepOf(encs[i], space)
      case Fail(e) => Failed(e, Some(i))
      case Emit(bytes) => Prepend(bytes, WriteFrom(encs, i + 1, space - |bytes|))
  }

  /** `BoutWrite` on a bout whose ring has `slotSpace` bytes free: an empty
      list writes nothing; no space fails before any parameter; otherwise
      one byte is held back and the parameters are written in order. */
  function WriteSpec(params: seq<Param>, args: seq<Arg>, slotSpace: nat, unitSize: nat): (o: Outcome)
    requires WellFormed(params, args, unitSize)
    ensures o.Done? ==> o.bytes == [] || |o.bytes| < slotSpace
    ensures params == [] ==> o == Done([])
    ensures params != [] && slotSpace == 0 ==> o == Failed(BufferOverflowError, None)
  {
    if |params| == 0 then Done([])
    else if slotSpace == 0 then Failed(BufferOverflowError, None)
    else WriteFrom(Encodings(params, args, unitSize), 0, slotSpace - 1)
  }

  /** What `BoutWrite` returns: success, or the error with the index of the
      parameter that raised it (none for the checks before the loop). */
  datatype WriteResult = Ok | Err(error: Error, index: Option<nat>)

  function ResultOf(o: Outcome): WriteResult
  {
    match o
    case Done(_) => Ok
    case Failed(e, i) => Err(e, i)
  }

  lemma PrependAppend(a: seq<byte>, b: seq<byte>, o: Outcome)
    ensures Prepend(a, Prepend(b, o)) == Prepend(a + b, o)
  {
    if o.Done? {
      assert a + (b + o.bytes) == (a + b) + o.bytes;
    }
  }

  // ---------------------------------------------------------------------------
  // What each case writes
  // ---------------------------------------------------------------------------

  /** A string followed by its terminator reads back as the string. */
  lemma {:induction false} CharsOfTerminated(t: seq<byte>, rest: seq<byte>)
    requires Nul !in t
    ensures Nul in t + [Nul] + rest && Chars(t + [Nul] + rest) == t
  {
    var s := t + [Nul] + rest;
    assert s[|t|] == Nul;
    if t != [] {
      assert s[1..] == t[1..] + [Nul] + rest;
      CharsOfTerminated(t[1..], rest);
    }
  }

  /** A fixed-size scalar is written as its `Width` bytes, least significant
      first, demands exactly that space, and reads back as the value. */
  lemma ScalarEncoding(p: Param, a: Arg, unitSize: nat)
    requires Width(p.kind) > 0 && ArgFits(p, a, unitSize)
    ensures Encoding(p, a, unitSize).Produce?
    ensures |Encoding(p, a, unitSize).bytes| == Encoding(p, a, unitSize).need == Width(p.kind)
    ensures FromLittleEndian(Encoding(p, a, unitSize).bytes) == a.value
  {
    LittleEndianRoundTrip(a.value, Width(p.kind));
  }

  /** A string is written up to and including its terminator, `SOH` with a
      second terminator, and demands the space it takes; read back as a C
      string it is the argument's string. */
  lemma StringEncoding(p: Param, a: Arg, unitSize: nat)
    requires (p.kind == SOH || p.kind == STX) && ArgFits(p, a, unitSize)
    ensures var e := Encoding(p, a, unitSize);
      && e.Produce? && e.need == |e.bytes|
      && |e.bytes| == |Chars(a.data)| + (if p.kind == SOH then 2 else 1)
      && Nul in e.bytes && Chars(e.bytes) == Chars(a.data)
  {
    CharsOfTerminated(Chars(a.data), if p.kind == SOH then [Nul] else []);
  }

  /** The 2- and 4-byte varints: the bytes decode to the value, demand the
      space they take, and number at most 3 and 5. */
  lemma VarintEncoding(p: Param, a: Arg, unitSize: nat)
    requires p.kind in {SV2, UV2, SV4, UV4} && ArgFits(p, a, unitSize) && a.Int?
    ensures var e := Encoding(p, a, unitSize);
      && e.Produce? && e.need == |e.bytes|
      && DecodeVarint(e.bytes) == a.value
      && |e.bytes| <= (if p.kind in {SV2, UV2} then 3 else 5)
  {
    VarintRoundTrip(a.value);
    VarintWidths(a.value);
  }

  /** The 8-byte varints: at most nine bytes that decode to the value, with
      nine bytes demanded beyond those written. */
  lemma Varint8Encoding(p: Param, a: Arg, unitSize: nat)
    requires (p.kind == SV8 || p.kind == UV8) && ArgFits(p, a, unitSize)
    ensures var e := Encoding(p, a, unitSize);
      && e.Produce? && e.need == |e.bytes| + 9
      && 1 <= |e.bytes| <= 9
      && DecodeVarint8(e.bytes, 8) == a.value
  {
    Varint8Holds64Bits();
    Varint8RoundTrip(a.value, 8);
  }

  /** A block writes the first `length` bytes of its data and demands
      `length`: `count * SizeOf(type)` for an array, `unitSize` for a unit,
      and for a sized block the length in its own first word, so what is
      written still declares its own length. */
  lemma BlockEncoding(p: Param, a: Arg, unitSize: nat)
    requires p.kind in {AR1, AR2, AR4, AR8, FS, GS, RS, US} && ArgFits(p, a, unitSize) && a.Bytes?
    ensures var e := Encoding(p, a, unitSize);
      && e.Produce? && e.need == |e.bytes| && e.bytes == a.data[..|e.bytes|]
      && (p.kind in {AR1, AR2, AR4, AR8} ==> |e.bytes| == ArrayLength(p))
      && (p.kind == US ==> |e.bytes| == unitSize)
      && (p.kind in {FS, GS, RS} && SizeWordWidth(p.kind) <= |e.bytes| ==>
            DeclaredLength(p.kind, e.bytes) == |e.bytes|)
  {
    var e := Encoding(p, a, unitSize);
    if p.kind in {FS, GS, RS} && SizeWordWidth(p.kind) <= |e.bytes| {
      var w := SizeWordWidth(p.kind);
      assert e.bytes[..w] == a.data[..w];
    }
  }

  /** A parameter is refused with `RoomError`, whatever the space, exactly
      when its tag is unknown or its pointer is null where the source checks
      for null. */
  lemma RejectedEncodings(p: Param, a: Arg, unitSize: nat, space: int)
    requires ArgFits(p, a, unitSize)
    ensures Encoding(p, a, unitSize).Reject? <==>
      p.kind.Unknown? || (a.Null? && p.kind in {UV2, AR1, AR2, AR4, AR8, FS, GS, RS, US})
    ensures Encoding(p, a, unitSize).Reject? ==> StepOf(Encoding(p, a, unitSize), space) == Fail(RoomError)
  {
  }

  // ---------------------------------------------------------------------------
  // What the parameter walk writes
  // ---------------------------------------------------------------------------

  predicate AllProduce(encs: seq<Encoded>, i: nat, j: nat)
    requires i <= j <= |encs|
  {
    forall k :: i <= k < j ==> encs[k].Produce?
  }

  /** The bytes of encodings `i..j` one after the other. */
  function Joined(encs: seq<Encoded>, i: nat, j: nat): seq<byte>
    requires i <= j <= |encs| && AllProduce(encs, i, j)
    decreases j - i
  {
    if i == j then [] else encs[i].bytes + Joined(encs, i + 1, j)
  }

  /** The space encodings `i..j` demand in all. */
  function TotalNeed(encs: seq<Encoded>, i: nat, j: nat): nat
    requires i <= j <= |encs| && AllProduce(encs, i, j)
    decreases j - i
  {
    if i == j then 0 else encs[i].need + TotalNeed(encs, i + 1, j)
  }

  /** A successful walk wrote every parameter, in order. */
  lemma {:induction false} WriteFromDone(encs: seq<Encoded>, i: nat, space: int)
    requires i <= |encs| && space >= 0 && forall k :: 0 <= k < |encs| ==> Fits(encs[k])
    ensures WriteFrom(encs, i, space).Done? ==>
      AllProduce(encs, i, |encs|) && WriteFrom(encs, i, space).bytes == Joined(encs, i, |encs|)
    decreases |encs| - i
  {
    if i < |encs| && WriteFrom(encs, i, space).Done? {
      var s := StepOf(encs[i], space);
      WriteFromDone(encs, i + 1, space - |s.bytes|);
    }
  }

  /** When every parameter is accepted and their demands add up to no more
      than the space, the walk succeeds. */
  lemma {:induction false} WriteFromEnough(encs: seq<Encoded>, i: nat, space: int)
    requires i <= |encs| && space >= 0 && forall k :: 0 <= k < |encs| ==> Fits(encs[k])
    requires AllProduce(encs, i, |encs|) && TotalNeed(encs, i, |encs|) <= space
    ensures WriteFrom(encs, i, space) == Done(Joined(encs, i, |encs|))
    decreases |encs| - i
  {
    if i < |encs| {
      WriteFromEnough(encs, i + 1, space - |encs[i].bytes|);
    }
  }

  /** A walk that fails at parameter `k` wrote every parameter before it,
      and parameter `k` was refused or demanded more than was left. */
  lemma {:induction false} WriteFromFailed(encs: seq<Encoded>, i: nat, space: int)
    requires i <= |encs| && space >= 0 && forall k :: 0 <= k < |encs| ==> Fits(encs[k])
    ensures var o := WriteFrom(encs, i, space);
      o.Failed? ==>
        var k := o.index.value;
        && i <= k < |encs| && AllProduce(encs, i, k) && |Joined(encs, i, k)| <= space
        && (if encs[k].Reject? then o.error == encs[k].error
            else o.error == BufferOverflowError && space - |Joined(encs, i, k)| < encs[k].need)
    decreases |encs| - i
  {
    var o := WriteFrom(encs, i, space);
    if o.Failed? && StepOf(encs[i], space).Emit? {
      var b := StepOf(encs[i], space).bytes;
      var k := o.index.value;
      WriteFromFailed(encs, i + 1, space - |b|);
      assert Joined(encs, i, k) == b + Joined(encs, i + 1, k);
    }
  }

  // ---------------------------------------------------------------------------
  // BoutWrite
  // ---------------------------------------------------------------------------

  /** One parameter of `WriteFrom`: a failing step ends the walk with its
      index, an emitting step puts its bytes before the rest. */
  lemma WriteStep(encs: seq<Encoded>, i: nat, space: int)
    requires i < |encs| && space >= 0 && forall k :: 0 <= k < |encs| ==> Fits(encs[k])
    ensures
      var s := StepOf(encs[i], space);
      && (s.Fail? ==> WriteFrom(encs, i, space) == Failed(s.error, Some(i)))
      && (s.Emit? ==>
        && |s.bytes| <= space
        && WriteFrom(encs, i, space) == Prepend(s.bytes, WriteFrom(encs, i + 1, space - |s.bytes|)))
  {
  }

  /** The ring after a write that produced `o`: on success the bytes have
      been stored from `stop0` on, the new `stop` is just past them and
      `hash` is their fold; on failure `stop` is where it was. */
  ghost predicate Committed(o: Outcome, buf: seq<byte>, buf0: seq<byte>, size: nat, stop0: nat, stop: nat, hash: uint16)
    requires stop0 < size && HeaderSize + size <= |buf0|
  {
    match o
    case Done(bytes) =>
      && |bytes| < size
      && stop == Wrap(stop0 + |bytes|, size)
      && hash == HashOf(bytes, 0)
      && buf == RingWrite(buf0, stop0, size, bytes)
    case Failed(_, _) => stop == stop0
  }

  /** The parameter loop of `BoutWrite`: encodes `params` one after the
      other against a budget of `space` bytes and stores the bytes of each
      from ring offset `bout.stop` on. `written` is what was stored: all of
      the encoding on success, the parameters before the failing one on
      failure. */
  method WriteParams(bout: Bout, encs: seq<Encoded>, space: nat)
    returns (result: WriteResult, stop: nat, hash: uint16, ghost written: seq<byte>)
    requires bout.Valid() && space < bout.size && forall k :: 0 <= k < |encs| ==> Fits(encs[k])
    modifies bout.buffer
    ensures result == ResultOf(WriteFrom(encs, 0, space))
    ensures |written| <= space
    ensures bout.buffer[..] == RingWrite(old(bout.buffer[..]), bout.stop, bout.size, written)
    ensures stop == Wrap(bout.stop + |written|, bout.size) && hash == HashOf(written, 0)
    ensures result.Ok? ==> WriteFrom(encs, 0, space) == Done(written)
  {
    ghost var target := WriteFrom(encs, 0, space);
    ghost var buf0 := bout.buffer[..];
    var size := bout.size;
    var left := space;
    stop, hash := bout.stop, 0;
    written := [];
    var index := 0;
    while index < |encs|
      invariant 0 <= index <= |encs|
      invariant 0 <= left && |written| + left == space
      invariant stop == Wrap(bout.stop + |written|, size) && stop < size
      invariant hash == HashOf(written, 0)
      invariant target == Prepend(written, WriteFrom(encs, index, left))
      invariant bout.buffer[..] == RingWrite(buf0, bout.stop, size, written)
    {
      var step := StepOf(encs[index], left);
      WriteStep(encs, index, left);
      if step.Fail? {
        assert target == Failed(step.error, Some(index));
        return Err(step.error, Some(index)), stop, hash, written;
      }
      var bytes := step.bytes;
      ghost var rest := WriteFrom(encs, index + 1, left - |bytes|);
      assert |bytes| <= left;
      assert WriteFrom(encs, index, left) == Prepend(bytes, rest);
      RingWriteAppend(buf0, bout.stop, size, written, bytes);
      stop, hash := bout.WriteBytes(stop, hash, bytes);
      HashOfAppend(written, bytes, 0);
      PrependAppend(written, bytes, rest);
      WrapTwice(bout.stop, |written|, |bytes|, size);
      written := written + bytes;
      left := left - |bytes|;
      index := index + 1;
    }
    assert written + [] == written;
    assert WriteFrom(encs, index, left) == Done([]);
    result := Ok;
  }

  /** `BoutWrite(bout, params, args)`. A null bout, parameter list or
      argument list is a `RoomError`. Otherwise the result and the ring are
      `WriteSpec`'s: on success the encoded bytes have been stored from the
      old `stop` on, `stop` has moved past them and `hash` is their `Hash16`
      fold; on failure `stop` has not moved. Either way only the free space
      after the old `stop` can change, so the unread bytes survive (see
      `FreeSpaceWritesKeepUnread`). */
  method BoutWrite(bout: Bout?, params: Option<seq<Param>>, args: Option<seq<Arg>>, unitSize: nat)
    returns (result: WriteResult, hash: uint16)
    requires bout != null ==> bout.Valid()
    requires params.Some? && args.Some? ==> WellFormed(params.value, args.value, unitSize)
    modifies if bout != null then {bout, bout.buffer} else {}
    ensures bout == null || params.None? || args.None? ==> result == Err(RoomError, None)
    ensures bout != null ==>
      && bout.Valid()
      && bout.size == old(bout.size) && bout.start == old(bout.start) && bout.read == old(bout.read)
      && SameOutside(bout.buffer[..], old(bout.buffer[..]), old(bout.stop), bout.size,
                     SlotSpace(bout.start, old(bout.stop), bout.size))
    ensures bout != null && params.Some? && args.Some? ==>
      var o := WriteSpec(params.value, args.value, SlotSpace(bout.start, old(bout.stop), bout.size), unitSize);
      && result == ResultOf(o)
      && Committed(o, bout.buffer[..], old(bout.buffer[..]), bout.size, old(bout.stop), bout.stop, hash)
  {
    hash := 0;
    if bout == null || params.None? || args.None? {
      return Err(RoomError, None), hash;
    }
    ghost var buf0 := bout.buffer[..];
    if |params.value| == 0 {
      assert HashOf([], 0) == 0 && bout.buffer[..] == RingWrite(buf0, bout.stop, bout.size, []);
      return Ok, hash;
    }
    var space := SlotSpace(bout.start, bout.stop, bout.size);
    if space == 0 {
      return Err(BufferOverflowError, None), hash;
    }
    ghost var o := WriteSpec(params.value, args.value, space, unitSize);
    var stop;
    ghost var written;
    var encs := Encodings(params.value, args.value, unitSize);
    result, stop, hash, written := WriteParams(bout, encs, space - 1);
    assert o == WriteFrom(encs, 0, space - 1);
    RingWriteEffect(buf0, bout.stop, bout.size, written);
    SameOutsideWiden(bout.buffer[..], buf0, bout.stop, bout.size, |written|, space);
    ghost var after := bout.buffer[..];
    if result.Ok? {
      bout.stop := stop;
    }
    assert bout.buffer[..] == after;
  }

  /** Writing only within the free space after `stop` leaves the unread
      bytes between `start` and `stop` as they were. */
  lemma FreeSpaceWritesKeepUnread(buf: seq<byte>, buf0: seq<byte>, size: nat, start: nat, stop: nat)
    requires start < size && stop < size && HeaderSize + size <= |buf| == |buf0|
    requires SameOutside(buf, buf0, stop, size, SlotSpace(start, stop, size))
    ensures forall p :: 0 <= p < size && Dist(start, p, size) < SlotLength(start, stop, size) ==>
      buf[HeaderSize + p] == buf0[HeaderSize + p]
  {
  }
}
