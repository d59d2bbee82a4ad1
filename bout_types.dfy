/** The B-Output header and its enumerations (source/kabuki/script/bout.h). */
module BoutTypes {

  /** `uint_t` is taken as 32 bits. */
  const UintSize: nat := 4
  const UintMax: nat := 0xFFFF_FFFF

  /** The `Bout` header is four `uint_t` words: size, start, stop, read. */
  const HeaderWords: nat := 4
  const HeaderSize: nat := HeaderWords * UintSize

  /** `Bout::Error`. */
  datatype Error = BufferOverflowError | LockedError | RoomError

  /** The value of each enumerator: `BufferOverflowError` is 0,
      `LockedError` 1 and `kErrorRoom` 2. */
  function ErrorCode(e: Error): (code: nat)
    ensures code < 3
    ensures code == 0 <==> e == BufferOverflowError
    ensures code == 1 <==> e == LockedError
    ensures code == 2 <==> e == RoomError
  {
    match e
    case BufferOverflowError => 0
    case LockedError => 1
    case RoomError => 2
  }

  /** The error codes are the positions 0, 1, 2 of the enumeration, so each
      code names one error. */
  lemma ErrorCodesDistinct(a: Error, b: Error)
    ensures ErrorCode(a) == ErrorCode(b) <==> a == b
  {
  }

  /** `Bout::State`. */
  datatype State = WritingState | LockedState

  function StateCode(s: State): (code: nat)
    ensures code < 2
    ensures code == 0 <==> s == WritingState
  {
    match s
    case WritingState => 0
    case LockedState => 1
  }

  /** An operation result is a pointer; null means success. */
  const Success: nat := 0

  /** The inline `BoutResult` overloads: whatever the error, header, offset or
      address, they return the same non-null sentinel, so every error result
      differs from success. */
  function BoutResult(error: Error, header: seq<nat>, offset: nat, address: nat): (r: nat)
    ensures r != Success
  {
    1
  }

  /** No overload lets a caller tell one error from another. */
  lemma BoutResultUniform(e1: Error, h1: seq<nat>, o1: nat, a1: nat, e2: Error, h2: seq<nat>, o2: nat, a2: nat)
    ensures BoutResult(e1, h1, o1, a1) == BoutResult(e2, h2, o2, a2)
  {
  }
}
