/** Fixed-width integers and the optional value that the C++ code expresses
    with raw pointers (a null pointer is `None`). */
module Types {

  newtype byte = x: int | 0 <= x < 0x100
  newtype uint16 = x: int | 0 <= x < 0x1_0000
  newtype uint32 = x: int | 0 <= x < 0x1_0000_0000
  newtype uint64 = x: int | 0 <= x < 0x1_0000_0000_0000_0000

  datatype Option<+T> = None | Some(value: T)

  /** The number of values an `n`-byte unsigned integer holds, 256^n. */
  function Pow256(n: nat): (p: nat)
    ensures p >= 1
  {
    if n == 0 then 1 else 0x100 * Pow256(n - 1)
  }

  /** The value of a `char` as the MSVC compiler the code targets sees it:
      `char` is signed, so bytes 0x80..0xFF stand for -128..-1. */
  function SignedChar(b: byte): (v: int)
    ensures -128 <= v < 128
    ensures (v - b as int) % 0x100 == 0
  {
    if b < 0x80 then b as int else b as int - 0x100
  }
}
