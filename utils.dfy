/** Byte and C-string primitives of the script layer: hex nibbles, the 16-bit
    string hash and the cursor helpers that walk null-terminated text.

    A C string is modelled as the byte sequence `s` that holds it, and a
    `const char*` into it as a position in `s`; where the C++ function checks
    for a null pointer the position is an `Option<nat>` and `None` is the
    null pointer. Character classes follow the "C" locale. */
module Utils {
  import opened Types

  const Nul: byte := 0
  const Minus: byte := 0x2D   // '-'
  const Zero: byte := 0x30    // '0'

  predicate IsDigit(c: byte) { 0x30 <= c <= 0x39 }

  /** `isspace` in the "C" locale: space, \t, \n, \v, \f and \r. */
  predicate IsSpace(c: byte) { c == 0x20 || 0x09 <= c <= 0x0D }

  predicate IsLowerHexDigit(c: byte) { IsDigit(c) || 0x61 <= c <= 0x66 }
  predicate IsUpperHexDigit(c: byte) { IsDigit(c) || 0x41 <= c <= 0x46 }
  predicate IsHexDigit(c: byte) { IsLowerHexDigit(c) || IsUpperHexDigit(c) }

  // ---------------------------------------------------------------------------
  // Hex nibbles
  // ---------------------------------------------------------------------------

  /** Lower-case hex digit of a nibble; anything above 15 saturates to 'f'. */
  function NibbleToLowerCaseHex(b: byte): (c: byte)
    ensures IsLowerHexDigit(c)
    ensures b < 16 ==> ToByte(c) == b as int
    ensures b > 15 ==> c == 0x66
  {
    if b > 15 then 0x66 else if b > 9 then b + (0x61 - 10) else b + 0x30
  }

  /** Upper-case hex digit of a nibble; anything above 15 saturates to 'F'. */
  function NibbleToUpperCaseHex(b: byte): (c: byte)
    ensures IsUpperHexDigit(c)
    ensures b < 16 ==> ToByte(c) == b as int
    ensures b > 15 ==> c == 0x46
  {
    if b > 15 then 0x46 else if b > 9 then b + (0x41 - 10) else b + 0x30
  }

  /** The value of a hex digit of either case, or -1 for any other byte. */
  function ToByte(c: byte): (v: int)
    ensures -1 <= v < 16
    ensures v == -1 <==> !IsHexDigit(c)
  {
    if c < 0x30 then -1
    else if c >= 0x61 then (if c > 0x66 then -1 else c as int - (0x61 - 10))
    else if c >= 0x41 then (if c > 0x46 then -1 else c as int - (0x41 - 10))
    else if c > 0x39 then -1
    else c as int - 0x30
  }

  /** Decoding a hex digit and encoding the value again in the digit's own
      case gives the digit back. */
  lemma HexDigitRoundTrip(c: byte)
    requires IsHexDigit(c)
    ensures IsLowerHexDigit(c) ==> NibbleToLowerCaseHex(ToByte(c) as byte) == c
    ensures IsUpperHexDigit(c) ==> NibbleToUpperCaseHex(ToByte(c) as byte) == c
  {
  }

  /** Two hex digits of `b` packed in a word: the LOW byte holds the digit of
      the high nibble and the high byte the digit of the low nibble, so that
      the word stored little-endian reads in the usual order. */
  function ToLowerCaseHex(b: byte): (h: uint16)
    ensures IsLowerHexDigit((h / 0x100) as byte) && IsLowerHexDigit((h % 0x100) as byte)
  {
    var high, low := NibbleToLowerCaseHex(b % 16), NibbleToLowerCaseHex(b / 16);
    assert (high as int * 0x100 + low as int) / 0x100 == high as int;
    (high as int * 0x100 + low as int) as uint16
  }

  function ToUpperCaseHex(b: byte): (h: uint16)
    ensures IsUpperHexDigit((h / 0x100) as byte) && IsUpperHexDigit((h % 0x100) as byte)
  {
    var high, low := NibbleToUpperCaseHex(b % 16), NibbleToUpperCaseHex(b / 16);
    assert (high as int * 0x100 + low as int) / 0x100 == high as int;
    (high as int * 0x100 + low as int) as uint16
  }

  /** The byte whose two hex digits are packed in `h` as `ToLowerCaseHex` and
      `ToUpperCaseHex` pack them, or -1 when either packed byte is not a hex
      digit. (`lower | upper << 4` is written as a sum: `lower` is below 16.) */
  function ToByte16(h: uint16): (v: int)
    ensures -1 <= v < 0x100
    ensures v == -1 <==> !(IsHexDigit((h / 0x100) as byte) && IsHexDigit((h % 0x100) as byte))
  {
    var lower := ToByte((h / 0x100) as byte);
    if lower < 0 then -1
    else
      var upper := ToByte((h % 0x100) as byte);
      if upper < 0 then -1 else lower + upper * 16
  }

  /** Encoding a byte as hex in either case and decoding it gives it back. */
  lemma HexRoundTrip(b: byte)
    ensures ToByte16(ToLowerCaseHex(b)) == b as int
    ensures ToByte16(ToUpperCaseHex(b)) == b as int
  {
    var lo, hi := b % 16, b / 16;
    var l := ToLowerCaseHex(b);
    assert l / 0x100 == NibbleToLowerCaseHex(lo) as uint16;
    assert l % 0x100 == NibbleToLowerCaseHex(hi) as uint16;
    var u := ToUpperCaseHex(b);
    assert u / 0x100 == NibbleToUpperCaseHex(lo) as uint16;
    assert u % 0x100 == NibbleToUpperCaseHex(hi) as uint16;
  }

  // ---------------------------------------------------------------------------
  // Hash16
  // ---------------------------------------------------------------------------

  const HashPrime := 65521

  /** One hash step: the signed char times 65521, plus the running hash,
      truncated to 16 bits. */
  function Hash16(c: byte, hash: uint16): (r: uint16)
    ensures (r as int - hash as int - SignedChar(c) * HashPrime) % 0x1_0000 == 0
  {
    ((SignedChar(c) * HashPrime + hash as int) % 0x1_0000) as uint16
  }

  /** For a fixed character a hash step is one-to-one in the running hash, so
      two different running hashes never merge on the same character. */
  lemma Hash16StepInjective(c: byte, h1: uint16, h2: uint16)
    requires Hash16(c, h1) == Hash16(c, h2)
    ensures h1 == h2
  {
    var k := SignedChar(c) * HashPrime;
    assert ((k + h1 as int) - (k + h2 as int)) % 0x1_0000 == 0;
  }

  /** Reference fold: `seed` hashed with every byte of `t`, first to last. */
  function HashOf(t: seq<byte>, seed: uint16): uint16
  {
    if t == [] then seed else Hash16(t[|t| - 1], HashOf(t[..|t| - 1], seed))
  }

  /** Hashing a concatenation continues from the hash of the first part. */
  lemma {:induction false} HashOfAppend(a: seq<byte>, b: seq<byte>, seed: uint16)
    ensures HashOf(a + b, seed) == HashOf(b, HashOf(a, seed))
    decreases |b|
  {
    if b != [] {
      var b' := b[..|b| - 1];
      assert (a + b)[..|a + b| - 1] == a + b';
      HashOfAppend(a, b', seed);
    } else {
      assert a + b == a;
    }
  }

  /** The bytes of a C string before its null terminator. */
  function Chars(s: seq<byte>): (t: seq<byte>)
    requires Nul in s
    ensures |t| < |s| && t == s[..|t|] && s[|t|] == Nul && Nul !in t
  {
    if s[0] == Nul then [] else [s[0]] + Chars(s[1..])
  }

  /** `Hash16(const char*, hash)`: folds `Hash16` over the characters before
      the first null and returns the seed for the empty string. */
  function Hash16String(s: seq<byte>, hash: uint16): (r: uint16)
    requires Nul in s
    ensures r == HashOf(Chars(s), hash)
  {
    if s[0] == Nul then hash
    else
      var rest := Hash16String(s[1..], Hash16(s[0], hash));
      HashOfAppend([s[0]], Chars(s[1..]), hash);
      assert HashOf([s[0]], hash) == Hash16(s[0], hash) by {
        assert [s[0]][..0] == [];
      }
      rest
  }

  // ---------------------------------------------------------------------------
  // Cursor helpers over null-terminated text
  // ---------------------------------------------------------------------------

  /** `s[i..]` holds a null terminator, so a cursor starting at `i` is a valid
      C string pointer. */
  predicate Terminated(s: seq<byte>, i: nat) { i <= |s| && Nul in s[i..] }

  lemma TerminatedNext(s: seq<byte>, i: nat)
    requires Terminated(s, i) && s[i] != Nul
    ensures Terminated(s, i + 1)
  {
    assert s[i..] == [s[i]] + s[i + 1..];
  }

  /** `SkipSpacesString`: the first position at or after `input` that is not
      whitespace, which is the terminator when only spaces remain. */
  function SkipSpacesString(s: seq<byte>, input: Option<nat>): (r: Option<nat>)
    requires input.Some? ==> Terminated(s, input.value)
    ensures r.Some? <==> input.Some?
    ensures r.Some? ==>
      && input.value <= r.value < |s|
      && (forall k :: input.value <= k < r.value ==> IsSpace(s[k]))
      && (s[r.value] == Nul || !IsSpace(s[r.value]))
    decreases if input.Some? then |s| - input.value else 0
  {
    match input
    case None => None
    case Some(i) =>
      if s[i] == Nul || !IsSpace(s[i]) then input
      else
        TerminatedNext(s, i);
        SkipSpacesString(s, Some(i + 1))
  }

  /** The end of the word at `i`: the first whitespace or null at or after it. */
  function WordEnd(s: seq<byte>, i: nat): (r: nat)
    requires Terminated(s, i)
    ensures i <= r < |s| && (s[r] == Nul || IsSpace(s[r]))
    ensures forall k :: i <= k < r ==> s[k] != Nul && !IsSpace(s[k])
    decreases |s| - i
  {
    if s[i] == Nul || IsSpace(s[i]) then i
    else
      TerminatedNext(s, i);
      WordEnd(s, i + 1)
  }

  /** `EndOfTokenString`: skips leading whitespace and the word after it, and
      stops one past the whitespace that ends the word, or at the terminator. */
  function EndOfTokenString(s: seq<byte>, input: Option<nat>): (r: Option<nat>)
    requires input.Some? ==> Terminated(s, input.value)
    ensures r.Some? <==> input.Some?
    ensures r.Some? ==>
      var start := SkipSpacesString(s, input).value;
      start <= r.value < |s|
      && (forall k :: input.value <= k < r.value ==> s[k] != Nul)
      && (
        (s[r.value] == Nul && forall k :: start <= k < r.value ==> !IsSpace(s[k]))
        || (start < r.value && IsSpace(s[r.value - 1])
            && forall k :: start <= k < r.value - 1 ==> !IsSpace(s[k])))
  {
    match input
    case None => None
    case Some(_) =>
      var start := SkipSpacesString(s, input).value;
      var w := WordEnd(s, start);
      if s[w] == Nul then Some(w)
      else
        TerminatedNext(s, w);
        Some(w + 1)
  }

  /** `EndOfString`: the first `delimiter` or the terminator, whichever comes
      first. */
  function EndOfString(s: seq<byte>, i: nat, delimiter: byte): (r: nat)
    requires Terminated(s, i)
    ensures i <= r < |s| && (s[r] == Nul || s[r] == delimiter)
    ensures forall k :: i <= k < r ==> s[k] != Nul && s[k] != delimiter
    decreases |s| - i
  {
    if s[i] == Nul || s[i] == delimiter then i
    else
      TerminatedNext(s, i);
      EndOfString(s, i + 1, delimiter)
  }

  /** The first non-digit at or after `i`. */
  function SkipDigits(s: seq<byte>, i: nat): (r: nat)
    requires Terminated(s, i)
    ensures i <= r < |s| && !IsDigit(s[r])
    ensures forall k :: i <= k < r ==> IsDigit(s[k])
    decreases |s| - i
  {
    if !IsDigit(s[i]) then i
    else
      TerminatedNext(s, i);
      SkipDigits(s, i + 1)
  }

  /** `NextNonNumberString`: skips an optional '-' and the digits after it. A
      '-' that no digit follows is not part of a number and is returned. */
  function NextNonNumberString(s: seq<byte>, i: nat): (r: nat)
    requires Terminated(s, i)
    ensures i <= r < |s|
    ensures s[i] != Minus ==> !IsDigit(s[r]) && forall k :: i <= k < r ==> IsDigit(s[k])
    ensures s[i] == Minus ==>
      (r == i && !IsDigit(s[i + 1]))
      || (i + 1 < r && !IsDigit(s[r]) && forall k :: i < k < r ==> IsDigit(s[k]))
  {
    if s[i] == Minus then
      TerminatedNext(s, i);
      if !IsDigit(s[i + 1]) then i
      else
        TerminatedNext(s, i + 1);
        SkipDigits(s, i + 2)
    else SkipDigits(s, i)
  }

  /** The first byte other than '0' at or after `i`. */
  function SkipZeros(s: seq<byte>, i: nat): (r: nat)
    requires Terminated(s, i)
    ensures i <= r < |s| && s[r] != Zero
    ensures forall k :: i <= k < r ==> s[k] == Zero
    decreases |s| - i
  {
    if s[i] != Zero then i
    else
      TerminatedNext(s, i);
      SkipZeros(s, i + 1)
  }

  /** `SkipLeadingZerosString`: drops the leading '0's of a number but keeps
      one when nothing but zeros precedes the first non-digit, so "007" gives
      "7" and "00x" gives "0x". A string not starting with '0' is returned
      as it is. */
  function SkipLeadingZerosString(s: seq<byte>, input: Option<nat>): (r: Option<nat>)
    requires input.Some? ==> Terminated(s, input.value)
    ensures r.Some? <==> input.Some?
    ensures r.Some? ==>
      && input.value <= r.value < |s|
      && forall k :: input.value <= k < r.value ==> s[k] == Zero
    ensures r.Some? && s[input.value] != Zero ==> r.value == input.value
    ensures r.Some? && s[input.value] == Zero ==>
      IsDigit(s[r.value]) && (s[r.value] == Zero ==> !IsDigit(s[r.value + 1]))
  {
    match input
    case None => None
    case Some(i) =>
      if s[i] != Zero then input
      else
        TerminatedNext(s, i);
        var d := SkipZeros(s, i + 1);
        if !IsDigit(s[d]) then Some(d - 1) else Some(d)
  }

  /** `t[j..]` starts with `w`. */
  predicate PrefixAt(w: seq<byte>, t: seq<byte>, j: nat)
  {
    j + |w| <= |t| && t[j..j + |w|] == w
  }

  /** The comparison loop of `CompareTokenString`: walks the word at `i`
      against the text at `j`. */
  function MatchWord(s: seq<byte>, i: nat, t: seq<byte>, j: nat): (r: Option<nat>)
    requires Terminated(s, i) && Terminated(t, j)
    ensures r.Some? <==> PrefixAt(s[i..WordEnd(s, i)], t, j)
    ensures r.Some? ==> r.value == WordEnd(s, i)
    decreases |s| - i
  {
    if s[i] == Nul || IsSpace(s[i]) then Some(i)
    else if s[i] != t[j] then None
    else if t[j] == Nul then None
    else
      TerminatedNext(s, i);
      TerminatedNext(t, j);
      var r := MatchWord(s, i + 1, t, j + 1);
      var w := WordEnd(s, i);
      assert s[i..w] == [s[i]] + s[i + 1..w];
      assert r.Some? ==> t[j..j + (w - i)] == [t[j]] + t[j + 1..j + 1 + (w - i - 1)];
      assert PrefixAt(s[i..w], t, j) ==> t[j + 1..j + 1 + (w - i - 1)] == t[j..j + (w - i)][1..];
      r
  }

  /** `CompareTokenString`: after skipping leading whitespace in both strings,
      a hit (the position just past the input's word) exactly when the token
      is not empty and the input's word is a prefix of the token text. */
  function CompareTokenString(s: seq<byte>, input: Option<nat>, t: seq<byte>, token: Option<nat>): (r: Option<nat>)
    requires input.Some? ==> Terminated(s, input.value)
    requires token.Some? ==> Terminated(t, token.value)
    ensures r.Some? ==> input.Some? && token.Some?
    ensures input.Some? && token.Some? ==>
      var i := SkipSpacesString(s, input).value;
      var j := SkipSpacesString(t, token).value;
      (r.Some? <==> t[j] != Nul && PrefixAt(s[i..WordEnd(s, i)], t, j))
      && (r.Some? ==> r.value == WordEnd(s, i))
  {
    if input.None? || token.None? then None
    else
      var i := SkipSpacesString(s, input).value;
      var j := SkipSpacesString(t, token).value;
      if t[j] == Nul then None else MatchWord(s, i, t, j)
  }

  // ---------------------------------------------------------------------------
  // Copying into a destination buffer
  // ---------------------------------------------------------------------------

  /** Index of the first `x` in `s`. */
  function IndexOf(s: seq<byte>, x: byte): (k: nat)
    requires x in s
    ensures k < |s| && s[k] == x && x !in s[..k]
  {
    if s[0] == x then 0
    else
      var k := 1 + IndexOf(s[1..], x);
      assert s[..k] == [s[0]] + s[1..][..k - 1];
      k
  }

  /** `CopyString`: copies `source` up to, not including, the first
      `delimiter` and null-terminates the copy. Only the delimiter stops the
      copy, so the source must contain it. Null pointers make it a no-op. */
  method CopyString(destination: array?<byte>, source: Option<seq<byte>>, delimiter: byte)
    requires source.Some? ==> delimiter in source.value
    requires destination != null && source.Some? ==> IndexOf(source.value, delimiter) < destination.Length
    modifies destination
    ensures destination != null && source.None? ==> destination[..] == old(destination[..])
    ensures destination != null && source.Some? ==>
      var n := IndexOf(source.value, delimiter);
      destination[..n] == source.value[..n] && destination[n] == Nul
      && destination[n + 1..] == old(destination[n + 1..])
  {
    if destination == null || source.None? {
      return;
    }
    var s := source.value;
    ghost var n := IndexOf(s, delimiter);
    var d := 0;
    var c := s[0];
    while c != delimiter
      invariant d <= n && c == s[d]
      invariant destination[..d] == s[..d]
      invariant destination[d..] == old(destination[d..])
      decreases n - d
    {
      assert s[..n][d] == s[d];
      destination[d] := c;
      d := d + 1;
      c := s[d];
    }
    destination[d] := Nul;
  }

  /** `ParseString`: copies the text at `input` up to the first `delimiter`
      or null into `destination`, at most `bufferSize` characters, and
      null-terminates it. It returns the position just past the stopping
      character (at it when `delimiter` is null); note that a string ending
      without the delimiter also returns one past its terminator. It returns
      null for a null pointer, a `bufferSize` below 1, or a token longer than
      `bufferSize`, in which case the first `bufferSize` characters have
      already been copied. */
  method ParseString(s: seq<byte>, input: Option<nat>, destination: array?<byte>, bufferSize: int, delimiter: byte)
    returns (r: Option<nat>)
    requires input.Some? ==> Terminated(s, input.value)
    requires input.Some? && destination != null && bufferSize >= 1 ==>
      if EndOfString(s, input.value, delimiter) - input.value > bufferSize
      then bufferSize <= destination.Length
      else EndOfString(s, input.value, delimiter) - input.value < destination.Length
    modifies destination
    ensures r.None? <==>
      input.None? || destination == null || bufferSize < 1
      || EndOfString(s, input.value, delimiter) - input.value > bufferSize
    ensures r.Some? ==>
      var i := input.value;
      var e := EndOfString(s, i, delimiter);
      r.value == (if delimiter == Nul then e else e + 1)
      && destination[..e - i] == s[i..e] && destination[e - i] == Nul
      && destination[e - i + 1..] == old(destination[e - i + 1..])
    ensures r.None? && input.Some? && destination != null && bufferSize >= 1 ==>
      var i := input.value;
      destination[..bufferSize] == s[i..i + bufferSize]
      && destination[bufferSize..] == old(destination[bufferSize..])
    ensures input.None? || destination == null || bufferSize < 1 ==>
      destination != null ==> destination[..] == old(destination[..])
  {
    if input.None? || destination == null || bufferSize < 1 {
      return None;
    }
    var i := input.value;
    ghost var e := EndOfString(s, i, delimiter);
    var size := bufferSize;
    var d := 0;
    var c := s[i];
    while c != Nul
      invariant i + d <= e && c == s[i + d]
      invariant size == bufferSize - d && 0 <= d <= bufferSize
      invariant destination[..d] == s[i..i + d]
      invariant destination[d..] == old(destination[d..])
      decreases e - (i + d)
    {
      if c == delimiter {
        // `c` is not null here, so neither is the delimiter.
        assert destination[d + 1..] == old(destination[d..])[1..];
        destination[d] := Nul;
        return Some(i + d + 1);
      }
      if size < 1 {
        return None;
      }
      size := size - 1;
      assert destination[d + 1..] == old(destination[d..])[1..];
      destination[d] := c;
      d := d + 1;
      c := s[i + d];
    }
    destination[d] := Nul;
    if delimiter == Nul {
      return Some(i + d);
    }
    return Some(i + d + 1);
  }
}
