# A verified model of the sbon / nbon streaming encoders

Two header-only C++ libraries, `sbon.h` (current) and `nbon.h` (older), read and
write the same tag-byte binary format. Each encoded value begins with one tag byte:

- `T`/`F`/`N` for true, false and null;
- `S` for a NUL-terminated string;
- `B` for a binary blob (a varint length, then the bytes);
- `f`/`d` for a float or double (4 or 8 little-endian bytes);
- a digit `0`-`9` for a small integer, `+` or `-` followed by a least-significant-first
  (LEB128) varint for other integers;
- `[` … `]` for an array, `{` key NUL value … `}` for an object.

A `Writer` appends to an output stream. A `Reader` pulls from an input stream. An
`ArrayReader` or `ObjectReader` shares that stream with its parent. Each writer and
reader has a `ready` flag. The flag locks the parent while a nested array or object
callback runs. Every guarded call on a locked parent throws `LogicError`.

This project models both libraries in Dafny and proves the reader's behaviour on
what the writer produces.

## Modules

- `wire.dfy` — `Wire`: bytes, the tag constants, `Error`/`Result`, a `Value`
  datatype for everything a writer can produce, and the pure encoders
  (`Encode`, `Varint`, `LittleEndian`, `CString`). The writers are proved against
  these encoders.
- `streams.dfy` — `Streams`: `InStream` (constant data plus a mutable position,
  with `Peek`/`Get`) and `OutStream` (an appended byte sequence). They stand for
  `std::istream` and `std::ostream`.
- `writers.dfy` — `Writers`: the `Writer` and `ObjectWriter` classes. The writers
  of the two libraries are byte-identical, so one module models both.
- `scan.dfy` — `Scan`: pure decoders that both readers share. They cover type
  classification, bool/nil tags, C strings, counted byte runs and little-endian
  words. Each returns the outcome and the stream position the C++ code leaves.
- `sbon_spec.dfy`, `sbon_reader.dfy` — `SbonSpec` holds the pure semantics of
  sbon's reader: the LSB-first `nextLEB128`, `getNumber<T>`, `skip` and
  `ObjectReader::match`. `SbonReader` holds the `Reader`, `ArrayReader` and
  `ObjectReader` classes. Their methods are loops proved against those functions.
- `nbon_spec.dfy`, `nbon_reader.dfy` — the same for nbon. Its `nextLEB128` rebuilds
  the groups most-significant first. It also has separate `nextInt`/`nextUInt`
  and `skipNext`.
- `clients.dfy` — `Clients`: programs that use the classes the way the test suite
  does, each with its outcome proved:
  - writing an arbitrary `Value` through nested callbacks;
  - write-then-skip and write-then-match over one stream;
  - the locked-parent error;
  - the byte-exact test vectors.

Method contracts have this shape:
- `Parsed(r, stream.pos) == Guarded(ready, old(stream.pos), XAt(data, old(stream.pos)))`:
  the result and the new position are what the pure function `XAt` says;
  on a locked reader they are `LogicError` and an unmoved stream.
- Writers state `os.bytes == old(os.bytes) + Emitted(ready, Encode…)`.

The lemmas then prove the format properties about those functions.

Modelling choices:
- Exceptions are `Err` results. After an exception, the rest of a C++ call does
  not happen, so that path returns at once.
- Callbacks such as `writeArray(func)` are split into `BeginArray` and `EndArray`.
  `func`'s work runs between them on the child object.
- `skip`, `skipNext` and `match` are modelled whole. Their nested readers and
  `all` loops are modelled as methods.
- A `match` handler is modelled as a key. The model returns the dispatch trace:
  for each member in stream order, its key and the index of the first handler
  with that key. A handler's action is taken to consume its value the way `skip`
  does; an unmatched value is skipped.
- `cpp/tests/read.cc` includes `nbon.h`, but it calls sbon's API (`getBool`,
  `getType`, `getNil`, `getArray`). Its test vectors are therefore modelled
  against `SbonReader`.

## Model

| member | source | states |
|---|---|---|
| Wire.Text | cpp/include/sbon.h:286-658 | the text of each `ParseError` the readers throw, one `Msg` per distinct string, spelled as the C++ code spells it (typos such as getBinary's "getString: Expected 'B'" kept) |
| Wire.Varint | cpp/include/sbon.h:185-191 | the bytes of `writeLEB128(n)`: the low seven bits with the continuation bit while more than seven bits remain, then the rest shifted right by seven; its shape and value are proved in VarintShape and VarintOfU64 |
| Wire.VarintShape | cpp/include/sbon.h:185-191 | every byte of `writeLEB128(n)` but the last has the high bit set, the last is below 0x80, and the groups read least-significant first give back n |
| Wire.VarintOfU64 | cpp/include/sbon.h:185-191 | for every u64, writeLEB128 emits between 1 and 10 bytes, continuation-bit shaped, whose LSB-first value is the input |
| Wire.VarintLength | cpp/include/sbon.h:185-191 | a number below 128^k takes at most k groups |
| Wire.VarintSingleByte | cpp/include/sbon.h:185-191 | the varint is one byte exactly when the number is below 0x80 |
| Wire.FirstNul | cpp/include/sbon.h:82-87 | the index where writeString cuts the string: no NUL before it, and a NUL at it unless it is the end |
| Wire.CString | cpp/include/sbon.h:79-90 | the bytes writeString emits contain no NUL, and a NUL-free string is kept whole |
| Wire.LittleEndian | cpp/include/sbon.h:100-104 | the byte packing of writeFloat has exactly k bytes |
| Wire.LittleEndianRoundTrip | cpp/include/sbon.h:591-598 | reassembling the k little-endian bytes of a number below 256^k gives the number back |
| Wire.LittleEndian4 | cpp/include/sbon.h:100-104 | the four bytes of writeFloat are `(n >> 8i) & 0xff` for i = 0..3 |
| Wire.LittleEndian8 | cpp/include/sbon.h:115-123 | the eight bytes of writeDouble are `(n >> 8i) & 0xff` for i = 0..7 |
| Wire.LittleEndianHalves | cpp/include/sbon.h:115-123 | the eight bytes of a double are the four bytes of its low word followed by the four of its high word |
| Wire.LittleEndianConcat | cpp/include/sbon.h:115-123 | j + k little-endian bytes are the first j followed by k bytes of what is shifted out |
| Wire.NegativeEncoding | cpp/include/sbon.h:140-142 | a negative integer is written as '-' and the varint of its magnitude |
| Wire.CanonicalInteger | cpp/include/sbon.h:134-160 | an integer is one byte exactly when it is 0..9, and that byte is its digit; from 10 up it starts with '+', below 0 with '-' |
| Wire.EncodeInteger | cpp/include/sbon.h:134-160 | the output of writeInt/writeUInt: the digit for 0..9, '+' and the varint above 9, '-' and the varint of the magnitude below 0; CanonicalInteger and NegativeEncoding state its cases |
| Wire.EncodeString | cpp/include/sbon.h:79-90 | writeString's output: 'S', the string cut at its first NUL, and a NUL |
| Wire.EncodeBinary | cpp/include/sbon.h:126-132 | writeBinary's output: 'B', the varint of the length, the bytes |
| Wire.EncodeFloat | cpp/include/sbon.h:92-105 | writeFloat's output: 'f' and the four little-endian bytes of the bit pattern |
| Wire.EncodeDouble | cpp/include/sbon.h:107-124 | writeDouble's output: 'd' and the eight little-endian bytes of the bit pattern |
| Wire.EncodeKey | cpp/include/sbon.h:203-207 | `ObjectWriter::key`'s output: the key cut at its first NUL, then a NUL |
| Wire.Encode | cpp/include/sbon.h:55-181 | the bytes the writer calls emit for a value: one tag byte per scalar as above, and '[' items ']' or '{' members '}' for writeArray/writeObject; Clients.WriteValue proves every writer produces exactly these bytes, and Scan.TypeOfEncoded that getType classifies their first byte |
| Wire.EncodeItems | cpp/include/sbon.h:163-170 | the items a writeArray callback writes, in order, back to back |
| Wire.EncodeMembers | cpp/include/sbon.h:174-181 | the members a writeObject callback writes, in order, back to back |
| Wire.EncodeMember | cpp/include/sbon.h:203-207 | one member: `key(k)` followed by its value |
| Streams.InStream.Peek | cpp/include/sbon.h:284 | `peek()`: the byte at the position, or none at the end, without moving |
| Streams.InStream.Get | cpp/include/sbon.h:317 | `get()`: the byte at the position and one step on, or none and no move at the end |
| Streams.OutStream.Put | cpp/include/sbon.h:58 | `<<` of one byte appends it |
| Streams.OutStream.Write | cpp/include/sbon.h:131 | `write` appends the bytes |
| Writers.Checked | cpp/include/sbon.h:193-197 | checkReady succeeds exactly when the writer is ready, and otherwise fails with LogicError |
| Writers.Emitted | cpp/include/sbon.h:193-197 | a guarded write emits its encoding when ready and nothing when locked |
| Writers.Writer.constructor | cpp/include/sbon.h:53 | a new writer on a stream is ready |
| Writers.Writer.WriteTrue | cpp/include/sbon.h:55-59 | appends 'T' when ready; LogicError and nothing appended when locked |
| Writers.Writer.WriteFalse | cpp/include/sbon.h:61-65 | appends 'F' when ready; LogicError otherwise |
| Writers.Writer.WriteBool | cpp/include/sbon.h:67-71 | appends the encoding of the boolean when ready; LogicError otherwise |
| Writers.Writer.WriteNull | cpp/include/sbon.h:73-77 | appends 'N' when ready; LogicError otherwise |
| Writers.Writer.WriteString | cpp/include/sbon.h:79-90 | appends 'S', the string up to its first NUL, and a NUL; the truncating loop is proved against `CString` |
| Writers.Writer.WriteFloat | cpp/include/sbon.h:92-105 | appends 'f' and the 4 little-endian bytes of the bit pattern |
| Writers.Writer.WriteDouble | cpp/include/sbon.h:107-124 | appends 'd' and the 8 little-endian bytes of the bit pattern |
| Writers.Writer.WriteBinary | cpp/include/sbon.h:126-132 | appends 'B', the varint of the length and the bytes |
| Writers.Writer.WriteInt | cpp/include/sbon.h:134-149 | appends the canonical integer form of any int64, INT64_MIN as '-' and the varint of 2^63 |
| Writers.Writer.WriteNegative | cpp/include/sbon.h:137-142 | both negative branches append '-' and the varint of the magnitude |
| Writers.Writer.WriteNonNegative | cpp/include/sbon.h:143-148 | the digit / '+' branches append the canonical form of a non-negative number |
| Writers.Writer.WriteUInt | cpp/include/sbon.h:151-160 | appends the canonical form of any uint64 |
| Writers.Writer.WriteLeb128 | cpp/include/sbon.h:185-191 | the do-while loop appends exactly `Varint(num)` |
| Writers.Writer.BeginArray | cpp/include/sbon.h:163-168 | a ready writer appends '[', locks itself and hands out a fresh ready child on the same stream; a locked one fails with LogicError and changes nothing |
| Writers.Writer.EndArray | cpp/include/sbon.h:169-170 | after the callback the writer is ready again and ']' is appended |
| Writers.Writer.BeginObject | cpp/include/sbon.h:174-179 | as BeginArray with '{' and an ObjectWriter |
| Writers.Writer.EndObject | cpp/include/sbon.h:180-181 | ready again and '}' appended |
| Writers.ObjectWriter.constructor | cpp/include/sbon.h:42 | an object writer on the stream |
| Writers.ObjectWriter.Key | cpp/include/sbon.h:203-207 | appends the key as a C string and its NUL, and returns a fresh ready writer on the same stream |
| Scan.PeekAt | cpp/include/sbon.h:284 | the peeked byte, present exactly when the position is before the end |
| Scan.NextAt | cpp/include/sbon.h:566-573 | next(): the byte and one step on, or ParseError "Unexpected EOF" at the end |
| Scan.Discard | cpp/include/sbon.h:355-363 | a skip succeeds or fails exactly as the matching get does, at the same position |
| Scan.Classify | cpp/include/sbon.h:287-311 | getType's switch: T/F bool, N nil, f float, d double, S string, B binary, '+' and the digits UINT, '-' INT, '[' array, '{' object, any other byte none; TypeAt and TypeOfEncoded state what it means for a stream |
| Scan.TypeAt | cpp/include/sbon.h:281-312 | getType's classification of the peeked byte; an error exactly at the end of the stream or on a byte with no type |
| Scan.BoolAt | cpp/include/sbon.h:314-325 | one byte consumed; true for 'T', false for 'F', ParseError on anything else or at EOF |
| Scan.ExpectAt | cpp/include/sbon.h:327-333 | one byte consumed; success exactly when it is the expected tag |
| Scan.BracketAt | cpp/include/sbon.h:470-473 | getArray's opener check: one byte consumed, success exactly on the bracket, "Unexpected EOF" at the end |
| Scan.NulFrom | cpp/include/sbon.h:344-346 | where the read loop of getString stops: at a NUL or at the end |
| Scan.NulFromFirst | cpp/include/sbon.h:344-346 | no byte before that stop is NUL |
| Scan.NulFromAt | cpp/include/sbon.h:344-346 | the first NUL from a position is where that loop stops |
| Scan.CStringAt | cpp/include/sbon.h:653-667 | ObjectReader::next's key loop: on success the bytes before the NUL and the position after it; at EOF the given ParseError with the whole stream consumed |
| Scan.CStringAtFirstNul | cpp/include/sbon.h:653-667 | the key read ends at the first NUL, and it fails exactly when no NUL follows |
| Scan.CStringAtNulFree | cpp/include/sbon.h:653-667 | a key read back contains no NUL |
| Scan.StringAt | cpp/include/sbon.h:335-347 | getString: an 'S' and bytes up to the NUL; an accepted string consumes at least tag and NUL |
| Scan.TakeAt | cpp/include/sbon.h:374-377 | the getBinary loop: exactly n bytes, or "Unexpected EOF" with the stream consumed when fewer remain |
| Scan.LittleEndianAt | cpp/include/sbon.h:587-600 | nextFloat's packing: k bytes reassembled little-endian, or "Unexpected EOF" |
| Scan.TypeOfEncoded | cpp/include/sbon.h:281-312 | getType on any written value returns that value's type |
| Scan.StringRoundTrip | cpp/include/sbon.h:335-347 | getString on writeString's bytes returns the string up to its first NUL and ends just after the terminator |
| Scan.CStringOfTerminated | cpp/include/sbon.h:653-667 | a NUL-free key followed by NUL is read back exactly |
| Scan.LittleEndianAtRoundTrip | cpp/include/sbon.h:587-600 | reading back k written little-endian bytes gives the number |
| Scan.FromLittleEndianBound | cpp/include/sbon.h:591-595 | k reassembled bytes are below 256^k, so a float fits 32 bits and a double 64 |
| Scan.LittleEndianSnoc | cpp/include/sbon.h:591-595 | each or-assign of a byte shifted by 8k adds the byte times 256^k |
| Scan.NotACloser | cpp/include/sbon.h:631-634 | a written value never starts with ']' or '}', so hasNext sees it |
| Scan.MemberKeyRead | cpp/include/sbon.h:653-667 | a written key not starting with '}' passes hasNext and is read back by next |
| SbonSpec.Leb128From | cpp/include/sbon.h:575-585 | the do-while of nextLEB128 with the or-assign and the shift written out mod 2^64; a successful read consumes at least one byte and is a u64; a shift of 64 or more is reported |
| SbonSpec.Leb128At | cpp/include/sbon.h:575-585 | nextLEB128 from shift 0 and value 0 |
| SbonSpec.Leb128Groups | cpp/include/sbon.h:579-583 | from any point of the loop, a group sequence that fits is added at the current shift |
| SbonSpec.Leb128RoundTrip | cpp/include/sbon.h:575-585 | nextLEB128 inverts writeLEB128 for every u64 and stops just after its last byte |
| SbonSpec.Leb128Overlong | cpp/include/sbon.h:579-583 | continuation bytes running past shift 63 end in the undefined-shift error |
| SbonSpec.Leb128ElevenGroups | cpp/include/sbon.h:579-583 | ten continuation bytes in a row make nextLEB128 reach shift 70 and fail on the eleventh byte |
| SbonSpec.Wrap | cpp/include/sbon.h:426 | `T num(x)` for an integer T gives a value in T's range, and x itself when x is in range |
| SbonSpec.FromUnsigned | cpp/include/sbon.h:424-431 | the '+' branch's `T num(u)` and cast-back check; NarrowUnsigned, NarrowPlus and PlusIntoInt64 prove which magnitudes pass for each T |
| SbonSpec.FromSigned | cpp/include/sbon.h:438-444 | the '-' branch's `T num(i)` and cast-back check: an accepted value is in T's range, and an int64 that T can hold passes unchanged |
| SbonSpec.FromFloat | cpp/include/sbon.h:445-460 | the 'f'/'d' branches' self-comparison: rejected exactly when a NaN payload is read into `float` or `double`, the payload passed on otherwise (the conversion itself is under Left out) |
| SbonSpec.NumberAt | cpp/include/sbon.h:416-464 | getNumber<T>: success only on a digit, '+', '-', 'f' or 'd' tag; EOF and "Expected number" errors where the code throws them; an accepted integer is in T's range |
| SbonSpec.NumberRoundTrip | cpp/include/sbon.h:416-444 | every integer in T's range except INT64_MIN, written with writeInt/writeUInt, reads back through getNumber<T> |
| SbonSpec.IntMinRejected | cpp/include/sbon.h:432-436 | writeInt(INT64_MIN) does not round trip: getNumber rejects the magnitude 2^63, an instance of MinusOverRejected |
| SbonSpec.MinusOverRejected | cpp/include/sbon.h:432-436 | '-' followed by any magnitude above INT64_MAX and below 2^64 is rejected as unrepresentable for every T, the stream left after the varint |
| SbonSpec.PlusAt | cpp/include/sbon.h:424-431 | the '+' branch reads the varint and converts it with the cast-back check |
| SbonSpec.MinusAt | cpp/include/sbon.h:432-444 | the '-' branch with a magnitude up to INT64_MAX converts its negation with the cast-back check (magnitudes above it: MinusOverRejected) |
| SbonSpec.Int64PlusWraps | cpp/include/sbon.h:424-431 | getInt on '+' and a u64 above INT64_MAX returns it wrapped negative: the 64-bit check never fires |
| SbonSpec.PlusIntoInt64 | cpp/include/sbon.h:426-427 | the int64 conversion of any u64 is its two's-complement wrap and passes the check |
| SbonSpec.UInt64MinusWraps | cpp/include/sbon.h:438-444 | getUInt on '-' and k returns 2^64 - k: the 64-bit check never fires |
| SbonSpec.MinusIntoUInt64 | cpp/include/sbon.h:438-441 | the uint64 conversion of -k is 2^64 - k and passes the check |
| SbonSpec.NarrowPlus | cpp/include/sbon.h:424-431 | for 8/16/32-bit T, '+' succeeds exactly when u fits T or, for signed T, wraps to a negative value of T near 2^64 |
| SbonSpec.NarrowUnsigned | cpp/include/sbon.h:426-429 | the cast-back check for narrow T, both directions |
| SbonSpec.NarrowUnsignedMinus | cpp/include/sbon.h:438-442 | a negative number read as a narrow unsigned T is rejected |
| SbonSpec.FloatRoundTrip | cpp/include/sbon.h:445-452 | getFloat on writeFloat's bytes gives the bit pattern back, or rejects it when it is a NaN |
| SbonSpec.DoubleRoundTrip | cpp/include/sbon.h:453-460 | the same for doubles |
| SbonSpec.BinaryAt | cpp/include/sbon.h:365-378 | getBinary: 'B', a varint length, that many bytes; a successful read moves past tag and length |
| SbonSpec.BinaryRoundTrip | cpp/include/sbon.h:365-378 | getBinary on writeBinary's bytes returns exactly the blob and stops after it |
| SbonSpec.SkipAt | cpp/include/sbon.h:526-563 | skip: dispatch on getType; a successful skip consumes at least one byte and leaves the reader unlocked |
| SbonSpec.SkipScalarAt | cpp/include/sbon.h:527-551 | the scalar cases of skip's switch, each by its get or skip call |
| SbonSpec.SkipArrayAt | cpp/include/sbon.h:466-484 | readArray with the skip handler: '[', skip items while hasNext, ']'; after an error inside, the reader stays locked |
| SbonSpec.SkipObjectAt | cpp/include/sbon.h:493-511 | readObject with the skip handler: '{', key and skip per member while hasNext, '}' |
| SbonSpec.SkipItemsAt | cpp/include/sbon.h:641-646 | ArrayReader::all with skip: items until the peek is ']' or EOF |
| SbonSpec.SkipMembersAt | cpp/include/sbon.h:670-676 | ObjectReader::all with skip: key, then value, until the peek is '}' or EOF |
| SbonSpec.FirstIndex | cpp/include/sbon.h:690-695 | the index of the first matcher whose key equals the key read, or none; FirstIndexSpec states it |
| SbonSpec.FirstIndexSpec | cpp/include/sbon.h:690-695 | the handler chosen for a key is the first with that key, and none exactly when no handler has it |
| SbonSpec.FirstIndexAt | cpp/include/sbon.h:690-695 | an index with that key and none before it is the chosen handler |
| SbonSpec.MatchMembersAt | cpp/include/sbon.h:684-702 | the match loop: per member in stream order, the key and the handler chosen, the value consumed |
| SbonSpec.MatchObjectAt | cpp/include/sbon.h:520-524 | matchObject: '{', the match loop, '}' |
| SbonSpec.SkipEncoded | cpp/include/sbon.h:526-563 | skip consumes exactly one complete written value (no INT64_MIN, no NaN, no key starting with '}') and leaves the reader ready |
| SbonSpec.SkipScalarEncoded | cpp/include/sbon.h:527-551 | each scalar case consumes exactly the written scalar |
| SbonSpec.SkipArrayEncoded | cpp/include/sbon.h:552-556 | skip on a written array consumes exactly the array, closer included |
| SbonSpec.SkipObjectEncoded | cpp/include/sbon.h:557-561 | skip on a written object consumes exactly the object |
| SbonSpec.SkipArrayStep | cpp/include/sbon.h:466-484 | an opener, items skipped up to a ']', and that ']' make a skipped array |
| SbonSpec.SkipObjectStep | cpp/include/sbon.h:493-511 | the same for objects |
| SbonSpec.SkipItemsEncoded | cpp/include/sbon.h:641-646 | the all loop consumes exactly the written items and stops at the array's ']' |
| SbonSpec.ItemSkipped | cpp/include/sbon.h:641-646 | one iteration of the all loop consumes exactly one written item |
| SbonSpec.SkipMembersEncoded | cpp/include/sbon.h:670-676 | the all loop consumes exactly the written members and stops at the object's '}' |
| SbonSpec.MemberSkipped | cpp/include/sbon.h:670-676 | one iteration consumes exactly one written key and value |
| SbonSpec.MemberEncodedHead | cpp/include/sbon.h:653-667 | a written member passes hasNext, its key reads back, and its value follows |
| SbonSpec.MembersLayout | cpp/include/sbon.h:653-667 | where the key, the value and the rest of a written member list lie |
| SbonSpec.SkipItemsStep | cpp/include/sbon.h:641-646 | one iteration of the all loop: a value not starting with ']' is skipped, then the loop continues |
| SbonSpec.SkipMembersStep | cpp/include/sbon.h:670-676 | one iteration over a member |
| SbonSpec.SkipKeyClash | cpp/include/sbon.h:648-651 | an object with a key starting with '}' is taken to end at that key: skip stops after two bytes |
| SbonSpec.Trace | cpp/include/sbon.h:684-702 | the dispatch trace of a member list has one entry per member |
| SbonSpec.TraceAt | cpp/include/sbon.h:687-700 | entry i is member i's key and its first matching handler |
| SbonSpec.MatchEncoded | cpp/include/sbon.h:520-524 | matchObject on a written object dispatches every member in stream order to its first handler and consumes exactly the object |
| SbonSpec.MatchObjectStep | cpp/include/sbon.h:520-524 | '{', a match loop ending at '}', and '}' give the loop's trace |
| SbonSpec.MatchMembersEncoded | cpp/include/sbon.h:684-702 | the match loop over written members yields their trace and stops at '}' |
| SbonSpec.MatchMembersStep | cpp/include/sbon.h:687-700 | one iteration of the match loop adds one dispatch |
| SbonReader.Reader.constructor | cpp/include/sbon.h:275 | a new reader on the stream is ready |
| SbonReader.Reader.HasNext | cpp/include/sbon.h:277-279 | true exactly when the peek is not EOF |
| SbonReader.Reader.GetType | cpp/include/sbon.h:281-312 | the type of the peeked byte without moving, LogicError when locked |
| SbonReader.Reader.GetBool | cpp/include/sbon.h:314-325 | result and new position are `BoolAt`'s; LogicError and no move when locked |
| SbonReader.Reader.GetNil | cpp/include/sbon.h:327-333 | consumes 'N' or fails with "skipNil: Expected 'N'" |
| SbonReader.Reader.GetString | cpp/include/sbon.h:335-353 | the read loop returns `StringAt`'s bytes and position |
| SbonReader.Reader.SkipString | cpp/include/sbon.h:355-363 | ends where getString would, with the same success |
| SbonReader.Reader.GetBinary | cpp/include/sbon.h:365-384 | the push_back loop returns `BinaryAt`'s blob and position |
| SbonReader.Reader.SkipBinary | cpp/include/sbon.h:386-398 | the count-down loop ends where getBinary would |
| SbonReader.Reader.GetNumber | cpp/include/sbon.h:416-464 | result and position are `NumberAt`'s for the type |
| SbonReader.Reader.GetFloat | cpp/include/sbon.h:400-402 | getNumber at `float` |
| SbonReader.Reader.GetDouble | cpp/include/sbon.h:404-406 | getNumber at `double` |
| SbonReader.Reader.GetInt | cpp/include/sbon.h:408-410 | getNumber at `int64_t` |
| SbonReader.Reader.GetUInt | cpp/include/sbon.h:412-414 | getNumber at `uint64_t` |
| SbonReader.Reader.BeginArray | cpp/include/sbon.h:467-477 | a ready reader consumes '[' and locks itself while handing out an ArrayReader on the same stream; otherwise the error, still ready |
| SbonReader.Reader.EndArray | cpp/include/sbon.h:478-483 | ready again, then ']' is required |
| SbonReader.Reader.BeginObject | cpp/include/sbon.h:494-504 | as BeginArray with '{' |
| SbonReader.Reader.EndObject | cpp/include/sbon.h:505-510 | ready again, then '}' is required |
| SbonReader.Reader.Skip | cpp/include/sbon.h:526-563 | the recursive skip ends with `SkipAt`'s result, position and lock state |
| SbonReader.Reader.SkipScalar | cpp/include/sbon.h:527-551 | the scalar switch cases agree with `SkipScalarAt` |
| SbonReader.Reader.SkipArray | cpp/include/sbon.h:552-556 | the array case of skip agrees with `SkipArrayAt` |
| SbonReader.Reader.SkipObject | cpp/include/sbon.h:557-561 | the object case agrees with `SkipObjectAt` |
| SbonReader.Reader.MatchObject | cpp/include/sbon.h:520-524 | matchObject returns `MatchObjectAt`'s trace, position and lock state |
| SbonReader.Reader.Next | cpp/include/sbon.h:566-573 | next() agrees with `NextAt` |
| SbonReader.Reader.NextLeb128 | cpp/include/sbon.h:575-585 | the do-while loop agrees with `Leb128At` |
| SbonReader.Reader.OrNextFour | cpp/include/sbon.h:592-595 | four or-assign steps of nextFloat extend a k-byte little-endian read to k+4 bytes |
| SbonReader.Reader.OrNextTwo | cpp/include/sbon.h:592-593 | two steps extend it to k+2 bytes |
| SbonReader.Reader.OrNextByte | cpp/include/sbon.h:592 | one step: the next byte at weight 256^k, or EOF |
| SbonReader.Reader.NextFloat | cpp/include/sbon.h:587-600 | the 4-byte little-endian packing agrees with `LittleEndianAt` |
| SbonReader.Reader.NextDouble | cpp/include/sbon.h:602-619 | the 8-byte packing agrees with `LittleEndianAt` |
| SbonReader.ArrayReader.constructor | cpp/include/sbon.h:260 | an array reader on the stream |
| SbonReader.ArrayReader.HasNext | cpp/include/sbon.h:631-634 | true exactly when the peek is neither ']' nor EOF |
| SbonReader.ArrayReader.Next | cpp/include/sbon.h:636-638 | a fresh ready reader on the shared stream |
| SbonReader.ArrayReader.SkipAll | cpp/include/sbon.h:641-646 | the all loop with skip agrees with `SkipItemsAt` |
| SbonReader.ObjectReader.constructor | cpp/include/sbon.h:227 | an object reader on the stream |
| SbonReader.ObjectReader.HasNext | cpp/include/sbon.h:648-651 | true exactly when the peek is neither '}' nor EOF |
| SbonReader.ObjectReader.Next | cpp/include/sbon.h:653-667 | the key loop returns `CStringAt`'s key and position, and a fresh ready value reader |
| SbonReader.ObjectReader.SkipAll | cpp/include/sbon.h:670-676 | the all loop with skip agrees with `SkipMembersAt` |
| SbonReader.ObjectReader.Match | cpp/include/sbon.h:684-702 | the match loop agrees with `MatchMembersAt` |
| SbonReader.ObjectReader.MatchMember | cpp/include/sbon.h:687-700 | one iteration yields the head of `MatchMembersAt` and moves forward, or its error |
| SbonReader.FindMatcher | cpp/include/sbon.h:690-696 | the handler search loop finds the first handler with the key |
| NbonSpec.Leb128From | cpp/include/nbon.h:544-553 | nbon's do-while: `num <<= 7; num += ch & 0x7f` mod 2^64; a success consumes at least one byte; EOF consumes the stream |
| NbonSpec.Decoded | cpp/include/nbon.h:544-553 | what nbon's nextLEB128 gives back for writeLEB128(n): the groups read most significant first, modulo 2^64, so always a u64 |
| NbonSpec.Leb128At | cpp/include/nbon.h:544-553 | nextLEB128 from 0 |
| NbonSpec.Leb128Groups | cpp/include/nbon.h:547-551 | a group sequence is read most-significant group first, mod 2^64 |
| NbonSpec.Leb128OfVarint | cpp/include/nbon.h:544-553 | on writeLEB128(n)'s bytes nextLEB128 returns the groups reversed, mod 2^64, and stops after the last |
| NbonSpec.Leb128SingleGroup | cpp/include/nbon.h:544-553 | a value below 128 round-trips |
| NbonSpec.Leb128Of128 | cpp/include/nbon.h:544-553 | 128 is written 80 01 and read back as 1 |
| NbonSpec.DecodedTwoTo63 | cpp/include/nbon.h:125-127 | INT64_MIN's magnitude 2^63 is written as nine 0x80 and a 0x01 and read back as 1 |
| NbonSpec.LsbDigits | cpp/include/nbon.h:173-179 | the writer's value is the groups taken least-significant first, each below 128 |
| NbonSpec.MsbDigits | cpp/include/nbon.h:547-551 | the reader's value is the groups reversed |
| NbonSpec.Leb128RoundTripIff | cpp/include/nbon.h:544-553 | for every u64 n, nextLEB128 inverts writeLEB128 exactly when n's base-128 digits form a palindrome, in both directions; for ten groups the top reversed digit counts only modulo 2 |
| NbonSpec.IntAt | cpp/include/nbon.h:413-426 | nextInt: a digit, '+' or '-' with the decoded magnitude wrapped to int64; any other tag is an error |
| NbonSpec.UIntAt | cpp/include/nbon.h:428-439 | nextUInt: only a digit or '+' is accepted |
| NbonSpec.FloatAt | cpp/include/nbon.h:367-386 | nextFloat: 'f' and four little-endian bytes |
| NbonSpec.DoubleAt | cpp/include/nbon.h:388-411 | nextDouble: 'd' and eight little-endian bytes |
| NbonSpec.UIntOfEncoded | cpp/include/nbon.h:428-439 | nextUInt on writeUInt(n)'s bytes gives n for 0..9 and the MSB-first decoding otherwise |
| NbonSpec.IntOfEncoded | cpp/include/nbon.h:413-426 | nextInt on writeInt(n)'s bytes gives n for 0..9 and otherwise the decoded magnitude, negated for '-' and wrapped to int64 |
| NbonSpec.IntSmallRoundTrip | cpp/include/nbon.h:413-426 | integers strictly between -128 and 128 round-trip through nextInt |
| NbonSpec.UInt128ReadsOne | cpp/include/nbon.h:434-435 | writeUInt(128) is read back as 1 |
| NbonSpec.IntMinReadsMinusOne | cpp/include/nbon.h:421-422 | writeInt(INT64_MIN) is read back as -1 |
| NbonSpec.FloatRoundTrip | cpp/include/nbon.h:367-386 | nextFloat returns writeFloat's bit pattern |
| NbonSpec.DoubleRoundTrip | cpp/include/nbon.h:388-411 | nextDouble returns writeDouble's bit pattern |
| NbonSpec.BinaryAt | cpp/include/nbon.h:332-345 | nextBinary: 'B', a decoded length, that many bytes |
| NbonSpec.BinaryOfEncoded | cpp/include/nbon.h:332-345 | on writeBinary's bytes nextBinary takes as many bytes as the MSB-first decoded length says |
| NbonSpec.BinaryLengthRead | cpp/include/nbon.h:339 | the length of a written blob is read as its MSB-first decoding |
| NbonSpec.BinaryLayout | cpp/include/nbon.h:114-120 | where writeBinary puts tag, length and bytes |
| NbonSpec.BinaryRoundTrip | cpp/include/nbon.h:332-345 | a blob whose length decodes back is returned exactly |
| NbonSpec.Binary128Misread | cpp/include/nbon.h:339-344 | a 128-byte blob has its length read as 1: nextBinary returns its first byte only |
| NbonSpec.SkipNextAt | cpp/include/nbon.h:495-532 | skipNext: dispatch on nextType; a success consumes at least one byte and leaves the reader unlocked |
| NbonSpec.SkipScalarAt | cpp/include/nbon.h:496-520 | the scalar cases of the switch |
| NbonSpec.SkipArrayAt | cpp/include/nbon.h:521-525 | nextArray with an all loop of skipNext |
| NbonSpec.SkipObjectAt | cpp/include/nbon.h:526-530 | nextObject with an all loop of skipNext |
| NbonSpec.SkipItemsAt | cpp/include/nbon.h:574-580 | ArrayReader::all: items until ']' or EOF |
| NbonSpec.SkipMembersAt | cpp/include/nbon.h:603-610 | ObjectReader::all: members until '}' or EOF |
| NbonSpec.SkipEncoded | cpp/include/nbon.h:495-532 | skipNext consumes exactly one written value whose blob lengths decode back and whose keys do not start with '}' |
| NbonSpec.SkipScalarEncoded | cpp/include/nbon.h:496-520 | each scalar case consumes exactly the written scalar |
| NbonSpec.SkipArrayEncoded | cpp/include/nbon.h:521-525 | a written array is consumed exactly |
| NbonSpec.SkipObjectEncoded | cpp/include/nbon.h:526-530 | a written object is consumed exactly |
| NbonSpec.SkipArrayStep | cpp/include/nbon.h:441-459 | opener, items up to ']', and ']' make a skipped array |
| NbonSpec.SkipObjectStep | cpp/include/nbon.h:468-486 | the same for objects |
| NbonSpec.SkipItemsEncoded | cpp/include/nbon.h:574-580 | the all loop consumes exactly the written items |
| NbonSpec.ItemSkipped | cpp/include/nbon.h:574-580 | one iteration consumes exactly one written item |
| NbonSpec.SkipMembersEncoded | cpp/include/nbon.h:603-610 | the all loop consumes exactly the written members |
| NbonSpec.MemberSkipped | cpp/include/nbon.h:603-610 | one iteration consumes exactly one written member |
| NbonSpec.MemberEncodedHead | cpp/include/nbon.h:587-601 | a written member passes hasNext and its key reads back |
| NbonSpec.MembersLayout | cpp/include/nbon.h:587-601 | where the key, value and rest of a written member list lie |
| NbonSpec.SkipItemsStep | cpp/include/nbon.h:574-580 | one iteration of the items loop |
| NbonSpec.SkipMembersStep | cpp/include/nbon.h:603-610 | one iteration of the members loop |
| NbonSpec.SkipIntMin | cpp/include/nbon.h:515-517 | unlike sbon's skip, skipNext gets through writeInt(INT64_MIN)'s 11 bytes |
| NbonReader.Reader.constructor | cpp/include/nbon.h:242 | a new reader is ready |
| NbonReader.Reader.HasNext | cpp/include/nbon.h:244-246 | true exactly when the peek is not EOF |
| NbonReader.Reader.NextType | cpp/include/nbon.h:248-279 | the type of the peeked byte without moving, same classification as sbon |
| NbonReader.Reader.NextBool | cpp/include/nbon.h:281-292 | agrees with `BoolAt` and nbon's message |
| NbonReader.Reader.SkipNil | cpp/include/nbon.h:294-300 | consumes 'N' or fails |
| NbonReader.Reader.NextString | cpp/include/nbon.h:302-320 | the read loop agrees with `StringAt` |
| NbonReader.Reader.SkipString | cpp/include/nbon.h:322-330 | ends where nextString would |
| NbonReader.Reader.NextBinary | cpp/include/nbon.h:332-351 | the push_back loop agrees with nbon's `BinaryAt` |
| NbonReader.Reader.SkipBinary | cpp/include/nbon.h:353-365 | the count-down loop ends where nextBinary would |
| NbonReader.Reader.NextFloat | cpp/include/nbon.h:367-386 | agrees with `FloatAt` |
| NbonReader.Reader.NextDouble | cpp/include/nbon.h:388-411 | agrees with `DoubleAt` |
| NbonReader.Reader.NextInt | cpp/include/nbon.h:413-426 | agrees with `IntAt` |
| NbonReader.Reader.NextUInt | cpp/include/nbon.h:428-439 | agrees with `UIntAt` |
| NbonReader.Reader.BeginArray | cpp/include/nbon.h:442-452 | a ready reader consumes '[' and locks itself; otherwise the error, still ready |
| NbonReader.Reader.EndArray | cpp/include/nbon.h:453-458 | ready again, then ']' is required |
| NbonReader.Reader.BeginObject | cpp/include/nbon.h:469-479 | as BeginArray with '{' |
| NbonReader.Reader.EndObject | cpp/include/nbon.h:480-485 | ready again, then '}' is required |
| NbonReader.Reader.SkipNext | cpp/include/nbon.h:495-532 | the recursive skipNext agrees with `SkipNextAt` |
| NbonReader.Reader.SkipScalar | cpp/include/nbon.h:496-520 | the scalar cases agree with `SkipScalarAt` |
| NbonReader.Reader.SkipArray | cpp/include/nbon.h:521-525 | the array case agrees with `SkipArrayAt` |
| NbonReader.Reader.SkipObject | cpp/include/nbon.h:526-530 | the object case agrees with `SkipObjectAt` |
| NbonReader.Reader.Next | cpp/include/nbon.h:535-542 | next() agrees with `NextAt` |
| NbonReader.Reader.NextLeb128 | cpp/include/nbon.h:544-553 | the MSB-first loop agrees with nbon's `Leb128At` |
| NbonReader.Reader.OrNextFour | cpp/include/nbon.h:378-381 | four packing steps extend a little-endian read by four bytes |
| NbonReader.Reader.OrNextTwo | cpp/include/nbon.h:378-379 | two steps |
| NbonReader.Reader.OrNextByte | cpp/include/nbon.h:378 | one step, or EOF |
| NbonReader.ArrayReader.constructor | cpp/include/nbon.h:228 | an array reader on the stream |
| NbonReader.ArrayReader.HasNext | cpp/include/nbon.h:565-568 | neither ']' nor EOF |
| NbonReader.ArrayReader.Next | cpp/include/nbon.h:570-572 | a fresh ready reader on the shared stream |
| NbonReader.ArrayReader.SkipAll | cpp/include/nbon.h:574-580 | agrees with `SkipItemsAt` |
| NbonReader.ObjectReader.constructor | cpp/include/nbon.h:214 | an object reader on the stream |
| NbonReader.ObjectReader.HasNext | cpp/include/nbon.h:582-585 | neither '}' nor EOF |
| NbonReader.ObjectReader.Next | cpp/include/nbon.h:587-601 | the key loop agrees with `CStringAt` and hands out a fresh ready reader |
| NbonReader.ObjectReader.SkipAll | cpp/include/nbon.h:603-610 | agrees with `SkipMembersAt` |
| Clients.WriteValue | cpp/include/sbon.h:55-182 | writing any well-formed value through the writer API appends exactly its encoding and leaves the writer ready |
| Clients.WriteScalar | cpp/include/sbon.h:55-160 | each scalar by its write call; integers above INT64_MAX through writeUInt |
| Clients.WriteArray | cpp/include/sbon.h:163-171 | writeArray with a callback writing the items appends the array's encoding |
| Clients.WriteObject | cpp/include/sbon.h:174-182 | writeObject with a callback writing the members appends the object's encoding |
| Clients.WriteItems | cpp/tests/write.cc:171-179 | a callback body writing items with the child writer |
| Clients.WriteMembers | cpp/tests/write.cc:188-196 | a callback body writing `key(k).write…(v)` per member |
| Clients.WriteMember | cpp/include/sbon.h:203-207 | key then value |
| Clients.SbonWriteThenSkip | cpp/include/sbon.h:526-563 | on a fresh stream, skip consumes everything the writer wrote for a skippable value, and hasNext is then false |
| Clients.SbonWriteThenMatch | cpp/include/sbon.h:684-702 | matchObject on a written object yields the trace of its members, and nothing is left |
| Clients.NbonWriteThenSkip | cpp/include/nbon.h:495-532 | skipNext consumes exactly what the writer wrote |
| Clients.NbonUInt128 | cpp/include/nbon.h:544-553 | writeUInt(128) read back by nbon's nextUInt gives 1 |
| Clients.WriteToLockedParent | cpp/tests/write.cc:204-217 | writing to the parent inside its writeArray callback fails with LogicError; '[' is the only byte written |
| Clients.WriteNestedArrays | cpp/tests/write.cc:167-182 | the array test writes exactly `[TF[FT]N]` |
| Clients.SbonReadBasic | cpp/tests/read.cc:8-19 | reading `TFNFT`: true, false, NIL type without consuming, nil, false, true, nothing left |
| Clients.SbonReadNestedArrays | cpp/tests/read.cc:124-139 | reading `[T[FF]3]` with nested getArray: true, false, false, no more inner items, 3, the closer, nothing left |
| Clients.ReadInnerArray | cpp/tests/read.cc:130-134 | the inner callback reads two falses and sees the end of the inner array |

## Left out

- Float semantics: IEEE-754 conversion is not modelled. `getNumber<T>` from an `f`/`d` tag
  into an integer T, and from an integer tag into `float`/`double`, returns the raw
  number or bit pattern (`SbonSpec.FromFloat`, `FromUnsigned`, `FromSigned`).
- SbonSpec.NumberAt: weaker than the source for float/integer cross conversions and for
  `getNumber<float>` on a `d` payload. It returns the bit pattern instead of the converted
  value and applies only the NaN exactness check, because these conversions use floating
  point. In particular `float num(d); if ((double)num != d) throw` (cpp/include/sbon.h:453-457)
  rejects every double that a float cannot hold exactly, such as 0.1; the model
  (`FromFloat`) accepts those and returns `Double(bits)`.
- `std::istream`/`std::ostream` mechanics (stream states, `peek` returning EOF as an int)
  are replaced by a byte sequence with a position. `size_t` is taken as 64 bits.
- Default constructors (`Writer()`, `Reader()`) and the copy assignment that
  `cpp/tests/read.cc:148` relies on are not modelled.
- User callbacks of `writeArray`/`getArray`/`getObject` and `nbon`'s `nextArray`/
  `nextObject` are modelled as Begin/End method pairs. What a callback does between them
  is up to the caller.
- The generic `readArray`, `readObject`, `ObjectReader::all` with an arbitrary handler, and
  nbon's `readNextArray`/`readNextObject` are modelled only with the skip handler, which
  is how `skip`/`skipNext` use them. A handler of unknown type cannot be stated.
- `ObjectMatcher` (cpp/include/sbon.h:704-714) with its function-pointer type erasure is
  modelled as a key. The handler's action is taken to consume its value the way `skip` does.
- The exception path of a nested callback: the source does not restore `ready` when a
  callback throws. The model keeps the parent locked (the `locked` flag of `Skipped`) and
  does not specify more.
- Error message text is kept as the `Msg` datatype. `Wire.Text` spells each as the C++
  code does; `std::exception::what` formatting is not modelled.
- Keys beginning with '}' are outside the skip and match round trips. `SbonSpec.SkipKeyClash`
  shows why: `hasNext` takes such a key for the end of the object.
- SbonSpec.Leb128From: the one input with undefined behaviour in C++ (a shift by 64 or more,
  from an eleventh group) is an explicit `UndefinedShift` error rather than a value.
- cpp/examples/sbon-to-json.cc and the test driver (cpp/tests/main.cc, cpp/tests/test.h,
  cpp/tests/util.h) are not part of this model.
- Concurrency: the libraries are single-threaded.
