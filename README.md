# Kabuki-SDK buffer core in Dafny

A Dafny model of the buffer-centred core of the Kabuki-SDK C++ code base, with
proofs about it:

- **Bok** (`source/crabs/bok.h`): a sorted-hash string map that lives in one
  caller-owned region. `BagAdd` hashes the key with `Hash16` and
  binary-searches the ascending hash array. On a miss it shifts the hash and
  insertion-index arrays up to open the search point and marks slot
  `num_items` as having no collision; the model shifts the collision marks up
  with the hashes instead, a correction listed under "Left out". On a
  16-bit hash collision it grows a terminator-delimited collision pile.
  `BagFind` is the read-only lookup; `BagClear` and `BagWipe` reset the table.
  The region is a `Bok` object whose header words are fields and whose arrays
  are sequence fields. Each array-changing path is a method proved equal to a
  function on a value `Table`. The invariant `Consistent` says the live
  hashes are sorted, every slot leads to a live item and every key is reached
  from a slot holding its hash. `AddSpec` keeps it, and lookup after insert
  is proved (`FindAfterAdd`).
- **Bout** (`source/kabuki/script/impl/script_bout.cc`,
  `source/kabuki/script/bout.h`): the B-Output ring buffer and its typed
  writer. `BoutWrite` walks a parameter list and writes each parameter into
  the ring: scalars little-endian, strings with their null terminator,
  varints in 7-bit groups that mark the last byte with 0x80, and raw blocks.
  Each byte is stored at `stop`, which wraps by subtracting `size`, and is
  folded into a running `Hash16`. The ring is an `array<byte>` behind the
  four header words. The write loop is proved against `WriteSpec`, a function
  of the parameters and the free space. The encodings are proved to decode
  back to their values.
- **Byte and string primitives**: hex nibbles, `Hash16` and the cursor,
  compare, copy and parse helpers of `script_utils.cc`. Bounded fill, copy and
  compare over raw memory from `f2_socket.cc`. The address packing of
  `script_address.cc`.
- **Small stateful components**: `ChannelGroup`, `IdServer`, `Room`,
  `RadioButton`, and the integer factorial `BezierCurve::factoral`.

Where the code departs from what its own comments and neighbouring code
intend, the model keeps the intended behaviour. It also models the code as
written, in `bout_as_written.dfy`, `bok_as_written.dfy` and a few members of
`socket.dfy` and `channel_group.dfy`. These are listed under Findings.

Modelling conventions:

- A C string is a `seq<byte>` holding a null terminator.
- A null pointer is `None` or a `null` reference.
- `uint_t` is 32 bits and `size_t` is 8 bytes.
- `char` is signed, as on the MSVC targets the code is written for.
- Helpers whose bodies are not part of this model are parameters or stated
  functions: `SlotSpace`, `SlotLength`, `SizeOf(type)`, `kUnitSize`,
  `kMinSlotSize`, `MAX_KEY_LENGTH`, and `GetEndAddress`.

## Model

| member | source | states |
|---|---|---|
| Types.SignedChar | source/kabuki/script/impl/script_utils.cc:154-157 | the `char` argument of `Hash16` read as a signed byte: in -128..127 and congruent to the byte modulo 256 |
| Utils.NibbleToLowerCaseHex | source/kabuki/script/impl/script_utils.cc:82-87 | always a lower-case hex digit; a nibble below 16 gives the digit `ToByte` decodes back to it; anything above 15 gives 'f' |
| Utils.NibbleToUpperCaseHex | source/kabuki/script/impl/script_utils.cc:89-93 | always an upper-case hex digit; a nibble below 16 gives the digit `ToByte` decodes back to it; anything above 15 gives 'F' |
| Utils.ToByte | source/kabuki/script/impl/script_utils.cc:109-124 | the result lies in -1..15 and is -1 exactly when the byte is not a hex digit of either case |
| Utils.HexDigitRoundTrip | source/kabuki/script/impl/script_utils.cc:82-124 | decoding a hex digit and encoding its value in the digit's own case gives the digit back |
| Utils.ToLowerCaseHex | source/kabuki/script/impl/script_utils.cc:95-100 | both packed bytes of the word are lower-case hex digits |
| Utils.ToUpperCaseHex | source/kabuki/script/impl/script_utils.cc:102-107 | both packed bytes of the word are upper-case hex digits |
| Utils.ToByte16 | source/kabuki/script/impl/script_utils.cc:126-141 | the result lies in -1..255 and is -1 exactly when either packed byte is not a hex digit |
| Utils.HexRoundTrip | source/kabuki/script/impl/script_utils.cc:95-141 | `ToByte(ToLowerCaseHex(b)) == b` and `ToByte(ToUpperCaseHex(b)) == b` for every byte |
| Utils.Hash16 | source/kabuki/script/impl/script_utils.cc:154-158 | the step is the signed char times 65521 plus the running hash, modulo 2^16 |
| Utils.Hash16StepInjective | source/kabuki/script/impl/script_utils.cc:154-158 | for a fixed character two different running hashes never give the same next hash |
| Utils.HashOfAppend | source/kabuki/script/impl/script_utils.cc:160-168 | hashing a concatenation continues from the hash of its first part |
| Utils.Chars | source/kabuki/script/impl/script_utils.cc:160-168 | the characters of a C string: a prefix of the bytes, free of nulls, followed by the terminator |
| Utils.Hash16String | source/kabuki/script/impl/script_utils.cc:160-168 | equals the reference fold of `Hash16` over the characters before the first null, so "" gives the seed |
| Utils.TerminatedNext | source/kabuki/script/impl/script_utils.cc:622-634 | advancing a cursor past a non-null byte keeps it inside a terminated string |
| Utils.SkipSpacesString | source/kabuki/script/impl/script_utils.cc:622-634 | null gives null; otherwise the first position, never past the terminator, that is not whitespace, with only whitespace skipped |
| Utils.WordEnd | source/kabuki/script/impl/script_utils.cc:645-651 | the first whitespace or null at or after the cursor, with no whitespace or null before it |
| Utils.EndOfTokenString | source/kabuki/script/impl/script_utils.cc:640-652 | null gives null; otherwise skips leading whitespace and the word, and stops at the terminator or one past the whitespace that ends the word, never past the terminator |
| Utils.EndOfString | source/kabuki/script/impl/script_utils.cc:658-666 | the first delimiter or the terminator, whichever comes first, with neither before it |
| Utils.SkipDigits | source/kabuki/script/impl/script_utils.cc:590-592 | the first non-digit at or after the cursor, with only digits skipped |
| Utils.NextNonNumberString | source/kabuki/script/impl/script_utils.cc:582-594 | skips an optional '-' and the digits after it; a '-' not followed by a digit is returned as it is; never past the terminator |
| Utils.SkipZeros | source/kabuki/script/impl/script_utils.cc:607-611 | the first byte other than '0' at or after the cursor, with only '0's skipped |
| Utils.SkipLeadingZerosString | source/kabuki/script/impl/script_utils.cc:600-616 | null gives null; a string not starting with '0' is returned as is; otherwise only '0's are skipped and one '0' is kept when no digit follows the run |
| Utils.MatchWord | source/kabuki/script/impl/script_utils.cc:684-694 | matches exactly when the word at the cursor is a prefix of the other text, and then returns the word's end |
| Utils.CompareTokenString | source/kabuki/script/impl/script_utils.cc:672-696 | null pointers give null; after skipping leading whitespace, a hit exactly when the token is not empty and the input's word is a prefix of it, the hit being the end of the input's word |
| Utils.IndexOf | source/kabuki/script/impl/script_utils.cc:389-394 | the position of the first occurrence of the byte |
| Utils.CopyString | source/kabuki/script/impl/script_utils.cc:383-398 | null pointers change nothing; otherwise the destination holds the source up to the delimiter, then a null, and nothing after it changes |
| Utils.ParseString | source/kabuki/script/impl/script_utils.cc:736-775 | null exactly for a null pointer, `buffer_size < 1` or a token longer than the buffer; otherwise the token is copied and null-terminated and the cursor returned just past the delimiter (at it for a null delimiter) |
| Socket.SizeOf | kabuki/f2/f2_socket.cc:88-95 | the signed distance: `begin + size == end`, and it is non-negative exactly when `begin <= end` |
| Socket.FillWord32 | kabuki/f2/f2_socket.cc:97-100 | the text of the 32-bit branch, which no target compiles (its guard tests the misspelt `CPU_WORD_SIze`): a fill byte below 0x80 is replicated into all four bytes of the word |
| Socket.FillWord64 | kabuki/f2/f2_socket.cc:97-105 | the branch every target compiles, as written: a fill byte below 0x80 lands in every byte of the 64-bit word but byte 5 |
| Socket.FillWordIntended | kabuki/f2/f2_socket.cc:97-105 | the word the fill loop needs: the fill byte in all eight bytes |
| Socket.FillWordDefects | kabuki/f2/f2_socket.cc:97-105 | 0x11 gives 0x1111001111111111 as written against 0x1111111111111111 intended; 0x80 is sign-extended to 0xFFFFFF80 |
| Socket.SocketFill | kabuki/f2/f2_socket.cc:107-146 | null and no write exactly when fewer than `byte_count` bytes lie between cursor and end; otherwise exactly the `byte_count` bytes at cursor become the fill byte and the cursor past them is returned |
| Socket.FillWord64Bytes | kabuki/f2/f2_socket.cc:102-103 | byte by byte, the word as written: byte 0 is the fill byte; below 0x80 the other bytes are the fill byte except byte 5, which is 0; from 0x80 up they are all 0xFF |
| Socket.ShiftedBytes | kabuki/f2/f2_socket.cc:97-103 | the OR of shifts on the widened character, per byte: the character in byte 0, nothing from the missing `<< 40` in byte 5 beyond the sign extension |
| Socket.FillAsWritten | kabuki/f2/f2_socket.cc:124-143 | the bytes the aligned path stores as written: the fill byte from the cursor up to the next word and in the tail loop from one past the aligned end through `end` itself; each word between holds the bytes of the as-written `FillWord64` by position; every other byte is unchanged |
| Socket.FillAsWrittenOffByOne | kabuki/f2/f2_socket.cc:136-143 | when the region does not end on a word, the byte at the aligned end stays unfilled and the byte at `end`, past the region, is overwritten; byte 5 of the first word is not the fill byte unless that is 0 or 0xFF |
| Socket.SocketFillCount | kabuki/f2/f2_socket.cc:148-151 | the counted form always fits: it fills exactly the `count` bytes at cursor and returns the position after them |
| Socket.SocketWipe | kabuki/f2/f2_socket.cc:153-156 | true exactly when the zero fill fits; then exactly those bytes are zero, otherwise nothing changes |
| Socket.SocketCopy | kabuki/f2/f2_socket.cc:158-205 | null and no write exactly when the destination is smaller than `read_size`; otherwise the first `read_size` bytes are copied in order, nothing else changes, and the short path returns the end of the copy, the long path the end of the destination |
| Socket.CopyAsWritten | kabuki/f2/f2_socket.cc:189-204 | the bytes the long path writes as written: source bytes by position up to the destination end rounded down to a word, whatever `read_size` is; when that end is not on a word, the byte at the rounded end keeps its old value and the byte at the destination end, one past the region, takes the source byte at `read_size`, one past the source; nothing outside the destination and that byte changes |
| Socket.CopyAsWrittenCounterexample | kabuki/f2/f2_socket.cc:189-204 | with 20 bytes into 20 the byte at 16 is not copied and the byte at 20 is overwritten with the byte past the source; with 17 bytes into 24, bytes 17 to 23 are copied from past the source |
| Socket.SocketCompare | kabuki/f2/f2_socket.cc:218-230 | true exactly when the sizes are equal and the regions hold the same bytes |
| Socket.CompareLoopAsWritten | kabuki/f2/f2_socket.cc:225-228 | the loop as written, reading through `end_a++`, reports equality exactly when the region is empty, so never for two non-empty regions |
| Socket.SocketCompareAsWritten | kabuki/f2/f2_socket.cc:218-230 | `SocketCompare` as written reports two regions equal exactly when both sizes are the same and not positive |
| Socket.SocketCompareAsWrittenCounterexample | kabuki/f2/f2_socket.cc:218-230 | two equal one-byte regions side by side: the loop as written reads past the end of memory |
| Address.PackAddress1 | source/kabuki/script/script_address.cc:22-24 | the low byte is the argument and everything above it is the marker bit 8 |
| Address.PackAddress2 | source/kabuki/script/script_address.cc:26-28 | for byte-sized arguments, byte k holds argument k and the bits above the fields are exactly the marker bit 16 |
| Address.PackAddress3 | source/kabuki/script/script_address.cc:30-32 | for byte-sized arguments, byte k holds argument k and the top byte is exactly the marker bit 24 |
| Address.PackAddress4 | source/kabuki/script/script_address.cc:34-38 | for byte-sized arguments, byte k holds argument k and the upper word is exactly the 64-bit marker bit 32 |
| Address.PackAddress5 | source/kabuki/script/script_address.cc:40-44 | for byte-sized arguments, byte k holds argument k and the bits above the fields are exactly the marker bit 40 |
| Address.PackAddress6 | source/kabuki/script/script_address.cc:46-51 | for byte-sized arguments, byte k holds argument k and the bits above the fields are exactly the marker bit 48 |
| Address.PackAddress7 | source/kabuki/script/script_address.cc:53-58 | for byte-sized arguments, byte k holds argument k and the top byte is exactly the marker bit 56, which fits in the 64-bit word |
| Bezier.FactPositive | projects/igeek/source/virus_world/igeek_bezier.cc:129-145 | the factorial is at least 1 |
| Bezier.Factoral | projects/igeek/source/virus_world/igeek_bezier.cc:129-145 | the result is the factorial of the argument's absolute value, so 0 and 1 give 1, `factoral(-n) == factoral(n)`, and it is at least 1 |
| ChannelGroup.GetChannelGuardAsWritten | Touch/ChannelGroup.hpp:24 | the bound test as written admits every channel below the size and the channel equal to the size |
| ChannelGroup.GetChannelGuardAdmitsEnd | Touch/ChannelGroup.hpp:23-26 | the bound test as written lets the channel equal to the size through, where the corrected lookup gives null |
| ChannelGroup.ChannelGroup.constructor | Touch/ChannelGroup.hpp:20 | a new group has no channels |
| ChannelGroup.ChannelGroup.GetChannelAddress | Touch/ChannelGroup.hpp:23-26 | an address exactly for an existing channel, and then that channel's address |
| ChannelGroup.ChannelGroup.SetChannelAddress | Touch/ChannelGroup.hpp:29-38 | a null address or a channel past the size changes nothing; the size appends; a smaller channel overwrites only that slot; afterwards the channel reads back the address |
| ChannelGroup.ChannelGroup.AddChannel | Touch/ChannelGroup.hpp:41-45 | null gives `~0` and adds nothing; otherwise the address is appended and its index, the new last one, returned and readable |
| ChannelGroup.ChannelGroup.RemoveChannel | Touch/ChannelGroup.hpp:49-52 | false and no change exactly when the index is out of range; otherwise exactly that channel is erased and the others keep their order |
| IdServer.IdServer.constructor | source/kabuki/id/include/id_server.cc:21-24 | a new server has no keys and 0 events |
| IdServer.IdServer.NumEvents | source/kabuki/id/include/id_server.cc:30-33 | reports the event count, 0 on a new server and one more after each `RegisterEvent` |
| IdServer.IdServer.RegisterEvent | source/kabuki/id/include/id_server.cc:56-59 | returns the count before the call and increments it, so successive calls return 0, 1, 2, ... |
| IdServer.IdServer.RegisterKey | source/kabuki/id/include/id_server.cc:35-40 | a key longer than the maximum gives -1 and registers nothing; otherwise the key is appended and its index returned |
| IdServer.IdServer.Find | source/kabuki/id/include/id_server.cc:47-54 | the smallest index holding the key, or -1 exactly when no key matches; nothing changes |
| IdServer.RegisterThenFind | source/kabuki/id/include/id_server.cc:35-54 | a new key that fits is found at the index `RegisterKey` returned; one too long is neither registered nor found |
| Room.RequestText | source/crabs/crabs_room.cc:47-62 | every request from `InvalidRequest` up reads "Invalid request"; the two valid requests read their own text |
| Room.Room.constructor | source/crabs/crabs_room.cc:64-72 | the state count is clamped to at least 1, the state starts at 1 and a null name reads "Unnamed"; the empty wall stack of caller-given height is the model's assumption, since the source never sets `walls_` |
| Room.Room.GetState | source/crabs/crabs_room.cc:77-79 | reports the current state, the last one `SetState` accepted |
| Room.Room.GetStateCount | source/crabs/crabs_room.cc:81-83 | reports the clamped state count, never below 1 under `Valid` |
| Room.Room.SetState | source/crabs/crabs_room.cc:85-94 | accepts exactly the states in `[0, state_count)`, after which `GetState` returns it; any other value leaves the state unchanged |
| Room.Room.SetRoomName | source/crabs/crabs_room.cc:100-107 | refuses a null name and keeps the old one; otherwise stores the new name |
| Room.Room.GetWall | source/crabs/crabs_room.cc:223-229 | a wall exactly for a number inside the stack, and then the wall at that number |
| Room.Room.AddWall | source/crabs/crabs_room.cc:231-238 | null for a null wall or a full stack, with the stack unchanged; otherwise pushes the wall, returns it and makes it the top |
| RadioButton.HitsCompose | library/kabuki/toolkit/hmi/hmi_button_radio.cc:52-56 | a + b presses are a presses followed by b |
| RadioButton.HitsAdvance | library/kabuki/toolkit/hmi/hmi_button_radio.cc:52-56 | below the wrap point each press moves the selection up by one |
| RadioButton.HitsCycle | library/kabuki/toolkit/hmi/hmi_button_radio.cc:52-56 | `numButtons + 1` presses bring a selection in `[0, numButtons]` back where it was |
| RadioButton.RadioButton.constructor | library/kabuki/toolkit/hmi/hmi_button_radio.cc:33-37 | a new button has index 0 and no extra positions |
| RadioButton.RadioButton.GetIndex | library/kabuki/toolkit/hmi/hmi_button_radio.cc:44 | reports the selection, the last stored value or the result of the last press |
| RadioButton.RadioButton.SetValue | library/kabuki/toolkit/hmi/hmi_button_radio.cc:46-50 | a negative value is refused and the index kept; any other value is stored, with no upper bound |
| RadioButton.RadioButton.Hit | library/kabuki/toolkit/hmi/hmi_button_radio.cc:52-56 | the index moves to the next position, wrapping to 0 past `numButtons`, and afterwards lies in `[0, numButtons]` |
| BoutTypes.ErrorCode | source/kabuki/script/bout.h:44-48 | `BufferOverflowError` is exactly code 0, `LockedError` exactly 1 and `kErrorRoom` exactly 2, and no code reaches 3 |
| BoutTypes.ErrorCodesDistinct | source/kabuki/script/bout.h:44-48 | two errors have the same code exactly when they are the same error |
| BoutTypes.StateCode | source/kabuki/script/bout.h:51-54 | the codes lie below 2, with 0 exactly for `WritingState` |
| BoutTypes.BoutResult | source/kabuki/script/bout.h:80-134 | every overload returns a non-null sentinel, different from success |
| BoutTypes.BoutResultUniform | source/kabuki/script/bout.h:80-134 | the sentinel is the same whatever the error kind, header, offset or address |
| BoutCodec.LittleEndian | source/kabuki/script/impl/script_bout.cc:286-433 | the bytes of an n-byte scalar number exactly n |
| BoutCodec.LittleEndianRoundTrip | source/kabuki/script/impl/script_bout.cc:286-433 | a value below 256^n written as n low-first bytes reads back as the value |
| BoutCodec.FromLittleEndianBound | source/kabuki/script/impl/script_bout.cc:286-433 | n bytes read back give a value below 256^n |
| BoutCodec.LittleEndianOfRead | source/kabuki/script/impl/script_bout.cc:286-433 | reading n bytes and writing the value back gives the same bytes |
| BoutCodec.Varint | source/kabuki/script/impl/script_bout.cc:455-539 | a varint has at least one byte; the last byte has 0x80 set and every earlier byte has it clear |
| BoutCodec.VarintRoundTrip | source/kabuki/script/impl/script_bout.cc:455-539 | the decoder reads every varint back as its value |
| BoutCodec.VarintLength | source/kabuki/script/impl/script_bout.cc:455-539 | a varint takes exactly k bytes when 128^(k-1) <= v < 128^k |
| BoutCodec.VarintLengthAtMost | source/kabuki/script/impl/script_bout.cc:455-539 | a value below 128^k takes at most k bytes |
| BoutCodec.VarintWidths | source/kabuki/script/impl/script_bout.cc:455-539 | a 16-bit value takes at most 3 bytes, a 32-bit value at most 5 |
| BoutCodec.VarintBoundaries | source/kabuki/script/impl/script_bout.cc:455-539 | byte counts at the group boundaries: 0 and 127 take 1, 128 and 16383 take 2, 16384 takes 3, 2^31-1 takes 5 |
| BoutCodec.Varint8 | source/kabuki/script/impl/script_bout.cc:544-587 | the capped 8-byte varint takes between 1 and groups+1 bytes |
| BoutCodec.Varint8Limit | source/kabuki/script/impl/script_bout.cc:544-587 | the capped encoding holds at least one full byte of range |
| BoutCodec.Varint8RoundTrip | source/kabuki/script/impl/script_bout.cc:544-587 | every value within the capped range decodes back to itself |
| BoutCodec.Varint8Holds64Bits | source/kabuki/script/impl/script_bout.cc:544-587 | eight groups plus a full byte hold exactly the 64-bit values, in at most 9 bytes |
| BoutCodec.Varint8AgreesWithVarint | source/kabuki/script/impl/script_bout.cc:544-587 | below 128^groups the capped encoding is the plain varint |
| Bout.BoutStateString | source/kabuki/script/impl/script_bout.cc:43-51 | code 0 names WritingState; every code from LockedState up names LockedState |
| Bout.BoutStateOfByte | source/kabuki/script/bout.h:71-73 | the byte overload names WritingState for 0 and LockedState otherwise |
| Bout.DistOfWrap | source/kabuki/script/impl/script_bout.cc:238-239 | stepping j < size bytes forward with one wrap stays in the ring and lies j bytes ahead |
| Bout.WrapTwice | source/kabuki/script/impl/script_bout.cc:238-239 | two wrapped advances compose into one |
| Bout.DistShift | source/kabuki/script/impl/script_bout.cc:238-239 | moving the cursor a bytes forward shortens the distance to every later offset by a |
| Bout.RingStep | source/kabuki/script/impl/script_bout.cc:238-239 | storing one more byte at the wrapped cursor extends the stored run by one and changes no other offset |
| Bout.RingWrite | source/kabuki/script/impl/script_bout.cc:238-239 | the region keeps its length after a ring write |
| Bout.RingWriteEffect | source/kabuki/script/impl/script_bout.cc:238-239 | after a ring write the bytes sit at the wrapped offsets from the cursor on and nothing else changed |
| Bout.RingWriteAppend | source/kabuki/script/impl/script_bout.cc:204-741 | writing two runs back to back is one ring write of both |
| Bout.SlotLength | source/kabuki/script/impl/script_bout.cc:98-102 | the unread length is less than the ring size |
| Bout.SlotSpace | source/kabuki/script/impl/script_bout.cc:91-96 | free space and unread length add up to size - 1 |
| Bout.Bout.Init | source/kabuki/script/impl/script_bout.cc:79-83 | the header over the region: ring size is the region less four words, start, stop and read are 0 |
| Bout.Bout.WriteBytes | source/kabuki/script/impl/script_bout.cc:238-239 | each byte is stored at the cursor, which wraps by subtracting size; the new cursor stays in the ring; the hash is the Hash16 fold of the bytes |
| Bout.BoutInit | source/kabuki/script/impl/script_bout.cc:75-89 | null exactly for a null region or one below kMinSlotSize; otherwise a fresh header whose ring is the region less four words, with start, stop and read 0 |
| Bout.BoutSpace | source/kabuki/script/impl/script_bout.cc:91-96 | all ones for a null bout; otherwise the free space, which with BoutBufferLength accounts for size - 1 bytes |
| Bout.BoutBufferLength | source/kabuki/script/impl/script_bout.cc:98-102 | all ones for a null bout; otherwise fewer bytes than the ring holds |
| Bout.Width | source/kabuki/script/impl/script_bout.cc:265-433 | a scalar tag's width is 0, 1, 2, 4 or 8 bytes |
| Bout.Encoding | source/kabuki/script/impl/script_bout.cc:204-737 | a case never writes more than the space it demands, and every refusal before the space check is RoomError |
| Bout.StepOf | source/kabuki/script/impl/script_bout.cc:204-737 | a step that writes stays within the space it was given |
| Bout.Encodings | source/kabuki/script/impl/script_bout.cc:204-737 | one encoding per parameter, each depending on its own parameter only |
| Bout.WriteFrom | source/kabuki/script/impl/script_bout.cc:204-741 | a successful walk writes no more than the space; a failure names a parameter in the list |
| Bout.WriteSpec | source/kabuki/script/impl/script_bout.cc:163-741 | an empty list succeeds writing nothing; no space fails with BufferOverflowError before any parameter; what is written leaves at least one byte of the space free |
| Bout.CharsOfTerminated | source/kabuki/script/impl/script_bout.cc:216-263 | a string followed by its terminator reads back as that string |
| Bout.ScalarEncoding | source/kabuki/script/impl/script_bout.cc:265-433 | a fixed-size scalar writes exactly its width in bytes, demands that space and reads back as the value |
| Bout.StringEncoding | source/kabuki/script/impl/script_bout.cc:216-263 | a string is written through its terminator, SOH with one more terminator; it demands what it writes and reads back as the argument's string |
| Bout.VarintEncoding | source/kabuki/script/impl/script_bout.cc:435-543 | the 2- and 4-byte varints decode to the value, demand what they write and take at most 3 and 5 bytes |
| Bout.Varint8Encoding | source/kabuki/script/impl/script_bout.cc:544-587 | the 8-byte varints take 1 to 9 bytes that decode to the value and demand 9 bytes more than they write |
| Bout.BlockEncoding | source/kabuki/script/impl/script_bout.cc:589-735 | a block writes the first length bytes of its data: count times element size for arrays, the unit size for US, the declared length for sized blocks, which the written bytes still declare |
| Bout.RejectedEncodings | source/kabuki/script/impl/script_bout.cc:450-452 | a parameter is refused with RoomError exactly when its tag is unknown or its pointer is null where the source checks for null |
| Bout.WriteFromDone | source/kabuki/script/impl/script_bout.cc:204-741 | a successful walk wrote every parameter's bytes, in order |
| Bout.WriteFromEnough | source/kabuki/script/impl/script_bout.cc:204-741 | when every parameter is accepted and their demands fit the space, the walk succeeds with all their bytes |
| Bout.WriteFromFailed | source/kabuki/script/impl/script_bout.cc:204-741 | a walk failing at parameter k wrote every earlier parameter within the space, and k was refused or demanded more than was left |
| Bout.WriteStep | source/kabuki/script/impl/script_bout.cc:204-741 | one loop iteration: a failing case ends the walk with its index, a writing case puts its bytes before the rest |
| Bout.WriteParams | source/kabuki/script/impl/script_bout.cc:204-741 | the loop's result is the walk's; the ring holds what was written from the old stop on, the cursor is past it and the hash is its Hash16 fold |
| Bout.BoutWrite | source/kabuki/script/impl/script_bout.cc:141-744 | a null bout, param list or arg list gives RoomError; otherwise the result and ring are WriteSpec's, on success the header's stop moves past the bytes written (the corrected half of the stop store-back finding), only the free space after the old stop changes, and the header's size, start and read stay |
| Bout.FreeSpaceWritesKeepUnread | source/kabuki/script/impl/script_bout.cc:192-200 | writing only into the free space after stop leaves every unread byte as it was |
| BoutAsWritten.Decrement32 | source/kabuki/script/impl/script_bout.cc:474 | a decrement of a 32-bit uint_t: x - 1, and all ones from 0 |
| BoutAsWritten.Bytes4AsWritten | source/kabuki/script/impl/script_bout.cc:319-363 | as written the fourth stored byte repeats the third |
| BoutAsWritten.Budget4AsWritten | source/kabuki/script/impl/script_bout.cc:327-330 | as written 8 is taken off the space after a check for 4, wrapping below 8 |
| BoutAsWritten.Scalar4Defect | source/kabuki/script/impl/script_bout.cc:319-363 | 0xDEADBEEF is stored as EF BE AD AD rather than EF BE AD DE, and 4 bytes of space wrap to 0xFFFFFFFC |
| BoutAsWritten.Bytes8AsWritten | source/kabuki/script/impl/script_bout.cc:365-433 | as written byte 4 repeats byte 3 and bytes 5 to 8 are zero |
| BoutAsWritten.Scalar8Defect | source/kabuki/script/impl/script_bout.cc:365-433 | 0x0102030405060708 is stored as 08 07 06 06 00 00 00 00 |
| BoutAsWritten.Varint2AsWritten | source/kabuki/script/impl/script_bout.cc:455-498 | the 2-byte varint with its checks as written writes 1 to 3 bytes |
| BoutAsWritten.Varint2AsWrittenBytes | source/kabuki/script/impl/script_bout.cc:455-498 | whatever it writes is the varint; only the checks differ |
| BoutAsWritten.Varint2BudgetDefect | source/kabuki/script/impl/script_bout.cc:474-490 | 128 is written with 1 byte of space and refused with 2, the reverse of the intended check |
| BoutAsWritten.Varint8AsWritten | source/kabuki/script/impl/script_bout.cc:555-583 | the 8-byte varint loop as written writes at least one byte |
| BoutAsWritten.Varint8AsWrittenIsVarint | source/kabuki/script/impl/script_bout.cc:555-583 | with the counter reset on every pass the loop is the uncapped varint |
| BoutAsWritten.Varint8CounterDefect | source/kabuki/script/impl/script_bout.cc:557-558 | 2^63 takes ten bytes as written, one more than the nine the byte counter is meant to allow |
| BoutAsWritten.Varint8FullLength | source/kabuki/script/impl/script_bout.cc:544-587 | from 128^groups up the capped encoding takes groups + 1 bytes |
| BoutAsWritten.StringNeedAsWritten | source/kabuki/script/impl/script_bout.cc:216-263 | as written a string is charged its characters plus one terminator |
| BoutAsWritten.AddressStringDefect | source/kabuki/script/impl/script_bout.cc:256-260 | the SOH string "a" is charged 2 bytes and stores 3 |
| BoutAsWritten.BlockOffsetsAsWritten | source/kabuki/script/impl/script_bout.cc:711-732 | as written the straight copy stores at stop, stop+1, ... without wrapping |
| BoutAsWritten.BlockDefects | source/kabuki/script/impl/script_bout.cc:706-735 | in a 16-byte ring with start 6 and stop 12 the space check leaves 8 bytes, so a 6-byte block passes it; as written the block lands at offsets 12 to 17, past the ring, where the intended copy wraps to 12..15, 0, 1; two 6-byte blocks both pass the check against those 8 bytes, where the intended walk stops at the second |
| Bok.BagMaxIndexes | source/crabs/bok.h:183-190 | the item limit is positive exactly for 1-, 2- and 4-byte indexes and never reaches the all-ones index, so a live index is never taken for a chain terminator |
| Bok.KeyHash | source/crabs/bok.h:235 | a key's hash is a 16-bit value, at most the collision placeholder 0xFFFF |
| Bok.ChainEnd | source/crabs/bok.h:305-317 | the chain walk stops at or after its start, on an entry at or above the index limit when inside the pile |
| Bok.ChainFindSpec | source/crabs/bok.h:305-317 | the chain loop returns an entry of the chain whose key equals the query, or ends at the chain's terminator exactly when no entry has that key |
| Bok.ChainEndBefore | source/crabs/bok.h:305-317 | a walk stops no later than the first terminator after its start |
| Bok.ChainStable | source/crabs/bok.h:305-317 | a chain reads only pile entries up to its terminator, so rewriting the pile above them keeps it |
| Bok.ChainGrows | source/crabs/bok.h:328-338 | inserting an index before a chain's terminator appends it to that chain and moves the terminator up one |
| Bok.ChainShifts | source/crabs/bok.h:328-338 | a chain starting above the insertion point moves up one position with the same entries |
| Bok.Search | source/crabs/bok.h:521-535 | a hit is a slot in range holding the hash; a miss is a position in range or one past it |
| Bok.SearchSpec | source/crabs/bok.h:521-535 | over sorted slots the search hits a slot holding the hash, or misses at the one position that keeps the slots sorted |
| Bok.SearchLive | source/crabs/bok.h:521-535 | over all live slots a miss happens exactly when no live slot holds the hash |
| Bok.InsertAt | source/crabs/bok.h:441-459 | slots below the insertion point keep their entry, the point takes the new entry, slots up to n take their lower neighbour's and slots past n are untouched |
| Bok.Reanchor | source/crabs/bok.h:328-338 | the collision marks keep their number after re-anchoring |
| Bok.ChainOkGrows | source/crabs/bok.h:305-317 | a chain of live indexes stays one once one more item is live |
| Bok.FirstConsistent | source/crabs/bok.h:245-257 | the first item of an empty table leaves a consistent table |
| Bok.InsertHashOrdered | source/crabs/bok.h:419-467 | a new hash inserted at the search's miss position keeps the live hashes sorted |
| Bok.InsertHashLinked | source/crabs/bok.h:419-467 | after a new hash every live slot still names a live item |
| Bok.InsertHashCovered | source/crabs/bok.h:419-467 | after a new hash every live key is still reached from a slot holding its hash |
| Bok.InsertHashIndexed | source/crabs/bok.h:419-467 | a key with a hash not yet in the table is reached and stored once after the insertion |
| Bok.NewChain | source/crabs/bok.h:388-396 | the run pushed on the pile for a new collision is a chain of the slot's index and the new index |
| Bok.NewCollisionLinked | source/crabs/bok.h:362-413 | a new collision keeps the table shaped, the hashes sorted and every slot linked to a live item |
| Bok.NewCollisionIndexed | source/crabs/bok.h:362-413 | after a new collision both keys of the hash are reached through its chain and each key is stored once |
| Bok.ExtendedChain | source/crabs/bok.h:328-338 | the pile shift gives the extended chain the new index and leaves every other chain's entries as they were |
| Bok.ExtendChainLinked | source/crabs/bok.h:319-355 | extending a chain keeps the table shaped, sorted and linked |
| Bok.ExtendChainCovered | source/crabs/bok.h:319-355 | after extending a chain every live key, the new one included, is reached from a slot holding its hash |
| Bok.ExtendChainIndexed | source/crabs/bok.h:319-355 | a key the chain walk did not find is stored once and reached after the extension |
| Bok.InsertHashConsistent | source/crabs/bok.h:419-467 | the insertion of a new hash at the miss position leaves a consistent table |
| Bok.AddAccepts | source/crabs/bok.h:245-467 | a key held by no live item, added to a table with a free index, room for the key and room for a collision run, is accepted at index `num_items` and appended to the live keys (the converse of AddRefuses) |
| Bok.AddSpec | source/crabs/bok.h:193-468 | an add keeps the table consistent, and either refuses the key with the table unchanged or returns an index holding the key: an earlier item's with nothing changed, or the next index with the key appended |
| Bok.AddAtSlot | source/crabs/bok.h:286-416 | on a hit a key already present gives its index back and a new key joins or starts the slot's chain, keeping the table consistent |
| Bok.Locate | source/crabs/bok.h:521-596 | a live key whose hash is not the placeholder is found by the search, and its slot's index or chain leads to it |
| Bok.FindComplete | source/crabs/bok.h:476-602 | a find returns the index of every live key whose hash is not the placeholder 0xFFFF |
| Bok.FindSpec | source/crabs/bok.h:476-602 | whatever a find returns other than the terminator is a live index holding the key |
| Bok.FindAfterAdd | source/crabs/bok.h:193-602 | for a key whose hash is not the placeholder 0xFFFF: after an add that stores or finds it, a find returns the index the add returned |
| Bok.AddPresent | source/crabs/bok.h:286-415 | for a key whose hash is not the placeholder 0xFFFF: adding it while it is live and the room checks pass returns its index and changes nothing |
| Bok.AddRefuses | source/crabs/bok.h:207-264 | a full table, a key longer than the room or, once an item is stored, a key as long as the room returns the terminator and changes nothing |
| Bok.ClearedConsistent | source/crabs/bok.h:694-699 | a cleared table is consistent |
| Bok.ClearEmpties | source/crabs/bok.h:694-699 | a cleared table holds no live key, finds nothing and gives its next key index 0 |
| Bok.Zeros | source/crabs/bok.h:702-707 | n zero entries |
| Bok.WipedConsistent | source/crabs/bok.h:702-707 | a zero-filled table is consistent |
| Bok.WipeRefuses | source/crabs/bok.h:702-707 | a wiped table holds no key, refuses every add and finds nothing |
| Bok.BagContains | source/crabs/bok.h:710-716 | false for a null collection, true exactly for an address from the collection's start to its end address inclusive |
| Bok.ContainsRegion | source/crabs/bok.h:710-716 | an address is contained exactly when it lies from the start of the region to its end address inclusive; a null collection contains nothing |
| Bok.SearchSlots | source/crabs/bok.h:521-535 | the binary-search loop computes Search over the live slots |
| Bok.WalkChain | source/crabs/bok.h:556-570 | the chain loop computes ChainFind |
| Bok.InsertShifting | source/crabs/bok.h:441-459 | the shifting loops compute InsertAt over the live entries: entries below the insertion point stay, the new value goes in at it, the live entries above it move up one and nothing past `num_items` changes (the corrected half of the bok.h:452-459 overrun) |
| Bok.BagFind | source/crabs/bok.h:476-602 | 0 for a null collection, the terminator for a null key, otherwise FindSpec's index; nothing changes |
| Bok.BagClear | source/crabs/bok.h:694-699 | no items and an empty pile, everything else as it was, and the table stays valid |
| Bok.BagWipe | source/crabs/bok.h:702-707 | every header word and array entry zero, and the table stays valid |
| Bok.ShiftedPile | source/crabs/bok.h:332-338 | shifting the live pile up from a position into a spare entry inserts the new index there |
| Bok.StoreFirst | source/crabs/bok.h:245-257 | the arrays hold the first item: slot 0 with the key's hash, no collision, index 0 |
| Bok.StoreNewHash | source/crabs/bok.h:421-461 | the arrays after the shifting loops are InsertHash's |
| Bok.StoreInChain | source/crabs/bok.h:319-355 | the arrays after the pile shift are ExtendChain's |
| Bok.StoreCollision | source/crabs/bok.h:371-405 | the arrays after the pile push are NewCollision's |
| Bok.BagAdd | source/crabs/bok.h:193-468 | 0 for a null collection or key with nothing changed; otherwise the table and index of AddSpec, and the table stays valid |
| Bok.AddToSlot | source/crabs/bok.h:286-416 | the table and index of AddAtSlot, and the table stays valid |
| BokAsWritten.SearchAsWritten | source/crabs/bok.h:268-285 | the search as written hits where Search does; its miss is the last slot probed, inside the range |
| BokAsWritten.StaleSlotDefect | source/crabs/bok.h:268-285 | with one live hash 5 and a stale 9 in slot 1, an add of a key hashing to 9 hits the stale slot |
| BokAsWritten.InsertPointDefect | source/crabs/bok.h:268-285 | with live hashes 5 and 7, hash 6 is inserted at slot 0, leaving 6 5 7 unsorted, where the intended point is slot 1 |
| BokAsWritten.EarlyAddAsWritten | source/crabs/bok.h:207-264 | as written, with the room computed from the overhead as written, a key exactly as long as that room in a non-empty table that is not full returns 0, and the search is reached only by a shorter key |
| BokAsWritten.RoomCheckDefect | source/crabs/bok.h:207-264 | a 20-byte `Bok2` table for two items holding "a" has room 4 as written (2 once the arrays are charged in full); adding "bbbb" returns index 0, whose key is "a" |
| BokAsWritten.HeadWord | source/crabs/bok.h:292-296 | the stored collision word is all ones exactly for a slot with no chain or a chain starting at the all-ones pile position |
| BokAsWritten.ChainTestAsWritten | source/crabs/bok.h:292-296 | the chain test of `BagAdd` as written, an `int` compared with the `int` -1, holds for no stored word |
| BokAsWritten.HitPathDefect | source/crabs/bok.h:292-296 | the signed test index < ~0 is false for every stored word, so the chain walk is never taken on a hit |
| BokAsWritten.FindChainTestAsWritten | source/crabs/bok.h:543-547 | the chain test of `BagFind` as written fails for every word of a Bok2 or Bok4 index, and for a Bok8 index holds exactly below the terminator |
| BokAsWritten.FindAsWritten | source/crabs/bok.h:476-602 | `BagFind` as written, which walks a chain only when its chain test passes and otherwise compares with the slot's own item, still returns the terminator or a live index holding the key |
| BokAsWritten.ChainedTableConsistent | source/crabs/bok.h:362-413 | "ab" and "ba" share the hash 62611, and the Bok2 table holding both under one chain is consistent |
| BokAsWritten.ChainedFindDefect | source/crabs/bok.h:543-596 | in that table a find of "ba" as written compares it with "ab" and returns the terminator 255, where the intended find returns 1 |
| BokAsWritten.OverheadAsWritten | source/crabs/bok.h:130-133 | the overhead as written, the width of `size_t`, is less than an item costs for every layout with index, key and data widths of at least 1, 2 and 2 bytes, which covers Bok2, Bok4 and Bok8 |
| BokAsWritten.RoomAsWritten | source/crabs/bok.h:130-133 | with the overhead as written the room exceeds the room the arrays leave |
| BokAsWritten.OverheadDefect | source/crabs/bok.h:130-133 | a Bok8 item costs 23 bytes but is charged 8, so 100 bytes with 4 items show room 68 instead of 8 |
| BokAsWritten.IndexShiftAsWritten | source/crabs/bok.h:452-459 | the insertion-index shift as written over the index array and the pile behind it: the new index lands at entry `mid`, and every entry from `max_items` to `mid + num_items` takes the entry below it |
| BokAsWritten.IndexShiftOverrunDefect | source/crabs/bok.h:452-459 | with 4 items of room, 3 live and a miss at slot 2, a pile 7, 8, 255 comes out as 9, 7, 255, while the live indexes are 0, 1, 3, 2 either way |
| BoutAsWritten.TwoWritesAsWritten | source/kabuki/script/impl/script_bout.cc:172-176 | the ring after two successful writes as written: both start at the header's unchanged stop; length kept |
| BoutAsWritten.TwoWrites | source/kabuki/script/impl/script_bout.cc:172-176 | the ring after two successful writes that store stop back: the second starts where the first ended; length kept |
| BoutAsWritten.StopNotStoredDefect | source/kabuki/script/impl/script_bout.cc:741 | as written the second write's first byte lands on the first write's, which is lost; with stop stored back both runs sit one after the other |

Proof helpers that model nothing in the source have no row: `Types.Pow256`, `BoutCodec.Pow128`, `BoutCodec.PowGrows`, `BoutAsWritten.Pow128Literals`, `Bout.PrependAppend`, `Bout.SameOutsideWiden` and `Bezier.MulAssoc`. Reference functions without a contract of their own have no row either; the rows of the lemmas and methods about them state their properties: `Bok.ChainFind` (`ChainFindSpec`, `WalkChain`), `Bok.First` (`FirstConsistent`, `StoreFirst`), `Bok.InsertHash` (the `InsertHash*` lemmas, `StoreNewHash`), `Bok.NewCollision` (`NewCollision*`, `StoreCollision`), `Bok.ExtendChain` (`ExtendChain*`, `StoreInChain`), `Bok.Cleared` (`ClearedConsistent`, `ClearEmpties`, `BagClear`), `Bok.Wiped` (`WipedConsistent`, `WipeRefuses`, `BagWipe`), `RadioButton.HitNext` (`HitsAdvance`, `HitsCycle`, `RadioButton.Hit`) and `Bezier.Fact` (`FactPositive`, `Factoral`).

## Left out

- Console and debug output: `BagPrint`, `BoutPrint`, the `Print*` functions of `script_utils.cc`, `PrintMemory`, `ChannelGroup::Print`, `IdServer::print`, and the `printf` traces inside `BagAdd`, `BagFind`, `SocketFill` and `SocketCopy`. They are I/O with no result.
- Heap, OS and exception code: `DuplicateString`, `CloneString`, `Delete`, `New`, `BagCreate`, the `Socket` constructors and destructors, and `Room::Main`.
- Stubs that always return false: `BagRemove`, `BagRemoveCopy` and `BagRetain`. Also `SetInsert`, `BoutStreamByte` and `HandleNextRequest`.
- `StringLength`, `IsToken` and `FindString` in `script_utils.cc`: their loops do not compute what their names say, and no other modelled operation depends on them.
- `ParseIntString` and `ParseFloatString`: they delegate to `sscanf`.
- The floating-point `BezierCurve` code and the plotting code.
- Bout.BoutWrite: the ESC case is taken to write nothing. `PackSignedVarint` is not part of this model, so a signed varint is written from the value `PackSignedVarint` would produce, given as the argument.
- Bout.BoutWrite: when a parameter fails partway through, the source has already stored some of its bytes in the free space. The model stores none of them. Either way only the free space after the old `stop` changes, and the header does not move.
- Bout.BoutWrite: every encoding is computed before the loop (`Encodings`). This gives the same bytes because each encoding reads only its own parameter.
- Bout.BoutWrite: the length word the string case reads from the parameter list, and the element-type word of the array cases, are folded into `Param`. `SizeOf(array_type)` is the parameter's `elementSize`.
- Bout.WriteParams: the block copy is modelled as the intended ring write, which wraps at the end of the ring and is charged against the space. The wrapping path as written (`size - length` loop, then `stop = begin - 1`) is not followed.
- Bout.SlotSpace: the body of `SlotSpace` is not part of this model. It is taken to be the free space of a ring that keeps one byte open.
- Bout.SlotLength: the body of `SlotLength` is not part of this model. It is taken to be the forward distance from `start` to `stop`.
- BoutTypes.BoutResult: the inline `bout.h` overloads return a non-null sentinel and are modelled as such. The `.cc` overloads are "@todo" stubs returning 0, the same value as success. `BoutWrite`'s result is the `WriteResult` datatype, `Ok` or `Err(error, parameter index)`.
- Bok.BagAdd: the key bytes written downward from the top of the region, `key_offsets` and `data_offsets` are not modelled. The keys are kept as a sequence indexed by insertion index.
- Bok.BagAdd: `BagAdd` and `BagFind` compute different byte layouts for the same arrays, and the code does not compile as written (`THash` is not a template parameter). The model uses one abstract layout for both.
- Bok.BagAdd: the shift of the insertion indexes on a miss (bok.h:452-459) starts at entry `mid` but moves `num_items` entries, so when `mid + num_items >= max_items` it overwrites the start of the collision pile. The model moves only the live entries above `mid` (`InsertShifting`); the overrun is listed under Findings.
- Bok.BagAdd: after a miss the model also shifts the collision marks up with the hashes, and after a chain grows it moves the starts of later chains up by one (`Reanchor`). The source does neither, which would leave marks pointing at the wrong slot or pile position.
- Bok.BagAdd: pile entries beyond `pile_size` are not kept by the model after an add.
- Bok.BagAdd: `static_cast<uint16_t>` of the key length and the wrap of `TKey value` when the arrays exceed the table size are not modelled. The room is an unbounded integer.
- Bok.FindComplete: a key whose hash is 0xFFFF, the hash given to collision tails, is not guaranteed to be found. The tail slot can precede the key's own slot in the search.
- Bok.FindAfterAdd: for the same reason, find-after-add is proved only for keys whose hash is not 0xFFFF.
- Bok.AddPresent: for the same reason, re-adding a live key is proved to return its index only when its hash is not 0xFFFF.
- Bok.BagContains: `GetEndAddress` is not part of this model and is a parameter. Addresses are integers.
- Bok.WalkChain: `MaxSetIndexes` is taken to be `BagMaxIndexes`.
- Bok.BagWipe: `memset` over `size` bytes is modelled as every header word and array entry set to zero.
- Bezier.Factoral: the `SI4` overflow for arguments above 12 and the negation of `INT_MIN` are not modelled. Integers are unbounded.
- ChannelGroup.ChannelGroup.RemoveChannel: the source falls off the end without returning a value. The model returns true once the channel is erased.
- RadioButton.RadioButton.SetValue: the source falls off the end without returning a value. The model returns true once the value is stored.
- Socket.SocketFill: states the intended fill. The word-aligned fast path as written stores the defective `FillWord64` word and has the tail off-by-one; its byte-level effect on a little-endian target is `FillAsWritten`, listed under Findings. It is not modelled word by word.
- Socket.SocketCopy: states the intended copy of `read_size` bytes on both paths. The long path as written does not do this: its byte-level effect is `CopyAsWritten`, listed under Findings. Neither is modelled word by word.
- Socket.FillWord32: models the text of a branch no target compiles. Its guard tests `CPU_WORD_SIze`, a misspelling defined nowhere, so every target takes the 64-bit branch (`FillWord64`). On a 32-bit target that branch shifts a 32-bit `uintptr_t` by 32 or more, which C++ leaves undefined; 32-bit targets are not modelled.
- Bout.BoutWrite: the source computes `hash` and discards it on return. The model returns it, as the `Hash16` fold of the bytes written, so that the fold can be stated. That fold includes the second terminator of an `SOH` string, which the source stores without hashing (script_bout.cc:256-260).
- Bout.BoutWrite: the word after the parameter count, which the source loads into `length` before the loop (script_bout.cc:201-202) and overwrites before any use, is not part of the modelled parameter list.
- Bout.BoutWrite: a null argument of the `FS` case returns the comma expression `(Bout::RoomError, params, index, start)` (script_bout.cc:651), whose value is `start`, not a `BoutResult`. The model reports `RoomError` for it like the other null arguments.
- Bok.StoreCollision: `BagAdd` reads the collided index into a `byte` and stores the pile position as `static_cast<byte>(pile_size)` (bok.h:374, 384-385), which truncate for Bok4 and Bok8. The model stores them at full width.
- Room.Room.constructor: the source never initialises `walls_`, in the constructor or anywhere else, yet `GetWall` and `AddWall` read `walls_->count` and `walls_->height`. On a new `Room` they read an uninitialised pointer. The model assumes an empty wall stack whose height the caller gives.
- Room.RequestText: the request is taken as a natural number. A negative value cast into `Request`, which the commented-out test at crabs_room.cc:58 would refuse, is not modelled.
- IdServer.IdServer.RegisterKey: the list type behind `ids_` is not part of this model. `ids_.Add` is taken to append the key and return its index, and `ids_` is a sequence of keys.

## Findings

| source | as written | input that shows it | evidently intended | confidence | as-written member | corrected member |
|---|---|---|---|---|---|---|
| kabuki/f2/f2_socket.cc:102-103 | the 64-bit `FillWord` ORs the shifts 0, 8, 16, 24, 32, 48, 56 and leaves out 40 | fill byte 0x11 gives 0x1111001111111111 | the fill byte in all eight bytes, 0x1111111111111111 | not executed | Socket.FillWordDefects | Socket.FillWordIntended |
| kabuki/f2/f2_socket.cc:136-143 | the tail loop of the aligned path runs from one past the aligned end through `end` itself | a region that does not end on a word boundary: the byte at the aligned end stays unfilled and the byte at `end` is written | exactly the `byte_count` bytes from the cursor are filled | not executed | Socket.FillAsWrittenOffByOne | Socket.SocketFill |
| kabuki/f2/f2_socket.cc:189-204 | the long path of `SocketCopy` copies up to the destination end rounded down to a word, and its tail loop stores through `end_ptr` and `stop_ptr` before decrementing them | begin 0 and 20 bytes into 20: byte 16 is not copied and byte 20, past the destination, is overwritten; 17 bytes into 24: bytes 17 to 23 come from past the source | copy exactly `read_size` bytes and write nothing else | not executed | Socket.CopyAsWrittenCounterexample | Socket.SocketCopy |
| kabuki/f2/f2_socket.cc:225-228 | the compare loop reads its second operand through `*end_a++` | two equal one-byte regions side by side: the loop reads past the end of memory and never reports them equal | compare the bytes of the two regions pairwise | not executed | Socket.SocketCompareAsWrittenCounterexample | Socket.SocketCompare |
| Touch/ChannelGroup.hpp:24 | `GetChannelAddress` refuses only `channel > size` | `channel == size` passes the guard and indexes one past the last channel | refuse `channel >= size` | not executed | ChannelGroup.GetChannelGuardAdmitsEnd | ChannelGroup.ChannelGroup.GetChannelAddress |
| source/kabuki/script/impl/script_bout.cc:327-357 | the 4-byte case checks for 4 bytes but subtracts 8 from `space`, and its fourth store writes `ui1`, still the third byte | 0xDEADBEEF is stored as EF BE AD AD; with 4 bytes of space the budget wraps to 0xFFFFFFFC | store EF BE AD DE and charge 4 bytes | not executed | BoutAsWritten.Scalar4Defect | Bout.ScalarEncoding |
| source/kabuki/script/impl/script_bout.cc:365-433 | the 8-byte case repeats the third byte as the fourth and truncates the value before the upper bytes | 0x0102030405060708 is stored as 08 07 06 06 00 00 00 00 | store 08 07 06 05 04 03 02 01 | not executed | BoutAsWritten.Scalar8Defect | Bout.ScalarEncoding |
| source/kabuki/script/impl/script_bout.cc:455-498 | the second and third varint bytes test `--space == 0` after the first checked `space-- == 0` | 128 (two bytes) is written with 1 byte of space and refused with 2 | write 128 exactly when 2 bytes are free | not executed | BoutAsWritten.Varint2BudgetDefect | Bout.VarintEncoding |
| source/kabuki/script/impl/script_bout.cc:555-583 | `goto WriteVarint8` jumps above `ui2 = 8`, so the byte counter restarts on every pass and the full-byte last group is never reached | 2^63 takes ten bytes, one more than the nine the byte counter `ui2 = 8` is meant to allow | at most eight 7-bit groups and one full byte, nine bytes | not executed | BoutAsWritten.Varint8CounterDefect | Bout.Varint8Encoding |
| source/kabuki/script/impl/script_bout.cc:256-260 | the `SOH` case stores a second terminator without checking or charging the space | the address string "a" is charged 2 bytes and stores 3 | charge the second terminator like the rest | not executed | BoutAsWritten.AddressStringDefect | Bout.StringEncoding |
| source/kabuki/script/impl/script_bout.cc:741 | `BoutWrite` advances only its local `stop` and returns without storing it in `bout->stop` | two successful writes whose first bytes differ, from the same header: the second stores its first byte at the header's `stop`, over the first write's | each successful write stores the new `stop` so that the next one appends | not executed | BoutAsWritten.StopNotStoredDefect | Bout.BoutWrite |
| source/kabuki/script/impl/script_bout.cc:706-735 | the block copy chooses its straight path with `start + length >= end`, which tests the read cursor rather than `stop`, never wraps on that path, and never takes the length off `space` | start 6, stop 12, ring of 16, so 8 bytes of space after the reserved byte: a 6-byte block passes the space check and lands at offsets 12 to 17, past the ring; two 6-byte blocks both pass the check against 8 bytes | wrap at the end of the ring and charge each block against the space | not executed | BoutAsWritten.BlockDefects | Bout.WriteParams |
| source/crabs/bok.h:270 | `BagAdd` searches slots `0..num_items`, one past the live ones | live hash 5 and a stale 9 in slot 1: adding a key hashing to 9 hits the stale slot | search the live slots `0..num_items-1`, as `BagFind` does | not executed | BokAsWritten.StaleSlotDefect | Bok.SearchLive |
| source/crabs/bok.h:268-285 | on a miss the new hash goes in at the last slot probed | live hashes 5 and 7: hash 6 is inserted at slot 0, giving 6 5 7 | insert where the search ends (`low`), giving 5 6 7 | not executed | BokAsWritten.InsertPointDefect | Bok.InsertHashOrdered |
| source/crabs/bok.h:261-264 | the second room check returns 0, a valid index | a 20-byte `Bok2` table for two items holding "a", whose room as written is 20 - 2 * 8 = 4: adding "bbbb" returns 0, the index of "a" | return `~0` like the other refusals | not executed | BokAsWritten.RoomCheckDefect | Bok.AddRefuses |
| source/crabs/bok.h:292-296 | the chain test `index < ~0` compares an `int` with the `int` -1, so no chain is ever walked and `key_offsets[index]` is then read with the collision word | any table: the test fails for every stored collision word, including the all-ones word of a slot with no chain | walk the chain when the slot has one, otherwise compare with the slot's insertion index | not executed | BokAsWritten.HitPathDefect | Bok.AddAtSlot |
| source/crabs/bok.h:543-547 | `BagFind` tests `index < ~0` with a `TIndex` index; for Bok2 and Bok4 it is promoted to `int` and compared with -1, so the chain is never walked | a Bok2 table holding "ab" and "ba", which share a hash and so a chain: a find of "ba" compares it with "ab" and returns 255 | walk the slot's chain when it has one | not executed | BokAsWritten.ChainedFindDefect | Bok.FindComplete |
| source/crabs/bok.h:452-459 | the miss path moves `num_items` insertion-index entries starting at entry `mid`, not the `num_items - mid` live ones above it | `max_items` 4, `num_items` 3, a miss at slot 2, pile 7, 8, 255: pile entries 0 and 1 are overwritten and the pile reads 9, 7, 255 | shift only the live entries, leaving the pile alone | not executed | BokAsWritten.IndexShiftOverrunDefect | Bok.InsertShifting |
| source/crabs/bok.h:130-133 | `SetOverheadPerIndex` returns `sizeof` of the sum, the width of `size_t` | a `Bok8` item costs 23 bytes but is charged 8: 100 bytes with 4 items show room 68 instead of 8 | return the sum itself, so that a key longer than the room the arrays leave is refused | not executed | BokAsWritten.OverheadDefect | Bok.AddRefuses |
