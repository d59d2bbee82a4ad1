/** Script addresses (source/kabuki/script/script_address.cc): up to seven
    byte-sized fields packed little-endian, argument k in byte k, with a single
    marker bit just above the last field, so that the highest set bit gives
    the address length. Each overload keeps the C++ operand width: the
    one-byte form is 16 bits, the two- and three-argument forms 32 bits, the
    others 64 bits.

    Each contract says, for arguments below 256, that byte k of the result is
    argument k and that everything above the fields is exactly the marker bit
    at position 8n, which puts an n-field address in `[2^(8n), 2^(8n+1))`. */
module Address {
  import opened Types

  function PackAddress1(a: byte): (x: uint16)
    ensures x / 0x100 == 1 && x % 0x100 == a as uint16
  {
    (0x100 + a as int) as uint16
  }

  function PackAddress2(a: bv32, b: bv32): (x: bv32)
    ensures a < 0x100 && b < 0x100 ==>
      && x & 0xFFFF_0000 == 1 << 16
      && x & 0xFF == a && x & 0xFF00 == b << 8
  {
    (1 << 16) | a | (b << 8)
  }

  function PackAddress3(a: bv32, b: bv32, c: bv32): (x: bv32)
    ensures a < 0x100 && b < 0x100 && c < 0x100 ==>
      && x & 0xFF00_0000 == 1 << 24
      && x & 0xFF == a && x & 0xFF00 == b << 8 && x & 0xFF_0000 == c << 16
  {
    (1 << 24) | a | (b << 8) | (c << 16)
  }

  /** From four fields on, the marker is a 64-bit one shifted into place, so
      even the seven-field marker at bit 56 fits. */
  function PackAddress4(a: bv64, b: bv64, c: bv64, d: bv64): (x: bv64)
    ensures a < 0x100 && b < 0x100 && c < 0x100 && d < 0x100 ==>
      && x & 0xFFFF_FFFF_0000_0000 == 1 << 32
      && x & 0xFF == a && x & 0xFF00 == b << 8 && x & 0xFF_0000 == c << 16
      && x & 0xFF00_0000 == d << 24
  {
    var one: bv64 := 1;
    (one << 32) | a | (b << 8) | (c << 16) | (d << 24)
  }

  function PackAddress5(a: bv64, b: bv64, c: bv64, d: bv64, e: bv64): (x: bv64)
    ensures a < 0x100 && b < 0x100 && c < 0x100 && d < 0x100 && e < 0x100 ==>
      && x & 0xFFFF_FF00_0000_0000 == 1 << 40
      && x & 0xFF == a && x & 0xFF00 == b << 8 && x & 0xFF_0000 == c << 16
      && x & 0xFF00_0000 == d << 24 && x & 0xFF_0000_0000 == e << 32
  {
    var one: bv64 := 1;
    (one << 40) | a | (b << 8) | (c << 16) | (d << 24) | (e << 32)
  }

  function PackAddress6(a: bv64, b: bv64, c: bv64, d: bv64, e: bv64, f: bv64): (x: bv64)
    ensures a < 0x100 && b < 0x100 && c < 0x100 && d < 0x100 && e < 0x100 && f < 0x100 ==>
      && x & 0xFFFF_0000_0000_0000 == 1 << 48
      && x & 0xFF == a && x & 0xFF00 == b << 8 && x & 0xFF_0000 == c << 16
      && x & 0xFF00_0000 == d << 24 && x & 0xFF_0000_0000 == e << 32
      && x & 0xFF00_0000_0000 == f << 40
  {
    var one: bv64 := 1;
    (one << 48) | a | (b << 8) | (c << 16) | (d << 24) | (e << 32) | (f << 40)
  }

  function PackAddress7(a: bv64, b: bv64, c: bv64, d: bv64, e: bv64, f: bv64, g: bv64): (x: bv64)
    ensures a < 0x100 && b < 0x100 && c < 0x100 && d < 0x100 && e < 0x100 && f < 0x100 && g < 0x100 ==>
      && x & 0xFF00_0000_0000_0000 == 1 << 56
      && x & 0xFF == a && x & 0xFF00 == b << 8 && x & 0xFF_0000 == c << 16
      && x & 0xFF00_0000 == d << 24 && x & 0xFF_0000_0000 == e << 32
      && x & 0xFF00_0000_0000 == f << 40 && x & 0xFF_0000_0000_0000 == g << 48
  {
    var one: bv64 := 1;
    (one << 56) | a | (b << 8) | (c << 16) | (d << 24) | (e << 32) | (f << 40) | (g << 48)
  }
}
