# TBON / Steak in Dafny

This project models the core of `tbon-java`. TBON is a binary object notation. **Steak** is its
byte format: a five-byte header (U+1F969 in UTF-8, then `0x00`) followed by tagged values.
The model covers five classes:

- **`SteakGenerator`** writes Steak bytes through an 8192-byte buffer in front of a byte
  channel. It is modelled as a class (`SteakGeneration.SteakGenerator`) with the buffer as an
  `array`. Each write method appends to what has been written exactly the bytes a function of
  `SteakEncoding` gives, and never writes past the buffer. The buffer is flushed when its room
  is short.
- **`SteakParser`** reads Steak bytes through an 8192-byte buffer. Each call of `next()`
  reads one tag and sets the parser's fields for the current token. The class
  `SteakParsing.SteakParser` is proved to behave as the step function `SteakDecoding.Next`
  says. `SteakRoundTrip` and `SteakParserFacts` then prove what `Next` gives back for every
  kind of value the generator writes, including the cases where it does not give the value
  back.
- **`TBONReader`** turns the parser's tokens into Java values by recursive descent:
  - scalars;
  - payloads, read in memory or spooled;
  - typed arrays;
  - lists up to `EndOfStructure`;
  - insertion-ordered maps;
  - custom types, resolved by a registered reader or else as a plain object.

  The parser is abstracted as a list of tokens. `TbonReading.TbonReader` is proved to follow
  the functions of `TbonReading`. `TbonReadingFacts` proves what those functions read.
- **`TBONWriter`** writes an object graph. Before writing an object it pushes the object on a
  guard stack. An object equal to one on the guard is written as `null`, which breaks cycles.
  A writer is chosen in a fixed order:
  1. the explicit type-writer map;
  2. the multi-type writers;
  3. the built-in writers of exact classes;
  4. the interface writers;
  5. Java arrays;
  6. the properties of a plain object.

  Java objects are a heap map. A write is specified by a `Trace`: the bytes, the objects
  closed and the exception. `TbonWriting.TbonWriter` is proved to produce the trace that the
  function `TbonWriting.Write` gives, and that function is proved to terminate on every
  graph. `TbonWritingFacts` proves the guard, ordering and closing properties.
- **`TypeHandlerRegistryImpl`** keeps the registered readers and writers, a name-to-reader
  map, and a class-to-writer map. In the class-to-writer map, subtypes come before their
  supertypes. `TypeHandlers.TypeHandlerRegistry` is the class. The lemmas of `TypeHandlers`
  prove two things:
  - the ordered list is a permutation of the explicit writers that keeps subtypes first;
  - when several writers share a class, the map gives the one registered first.

Supporting modules:

- `JavaTypes`: Java integer widths, narrowing and truncating division, and the exceptions.
- `SteakWire`: varints, signed varints, big-endian and two's-complement bytes, with their
  inverse readings.
- `LinkedMaps`: `LinkedHashMap` as an ordered list of entries.
- `TbonToken`: the token enumeration.

## Model

| member | source | states |
|---|---|---|
| SteakWire.VarUInt | src/main/java/kr/inode/tbon/steak/SteakGenerator.java:51-57 | the varint loop's bytes: every byte but the last has 0x80 set, the last is below 0x80 |
| SteakWire.Varint | src/main/java/kr/inode/tbon/steak/SteakGenerator.java:51-65 | a non-negative value is written as its varint; a negative one skips the loop and is the single byte `(byte) i` |
| SteakWire.VarUIntStep | src/main/java/kr/inode/tbon/steak/SteakGenerator.java:51-57 | one turn of the loop: the low seven bits with 0x80, then the varint of the value shifted right by seven |
| SteakWire.VarUIntLength | src/main/java/kr/inode/tbon/steak/SteakGenerator.java:51-65 | a value below 128^k takes at most k bytes |
| SteakWire.VPIntLength | src/main/java/kr/inode/tbon/steak/SteakGenerator.java:51-57 | `writeVPInt` writes at most five bytes for any `int` |
| SteakWire.VPLongLength | src/main/java/kr/inode/tbon/steak/SteakGenerator.java:59-65 | `writeVPLong` writes at most nine bytes for any `long` |
| SteakWire.VarNat | src/main/java/kr/inode/tbon/steak/SteakParser.java:378-400 | reading a varint consumes at least one byte, and fails only at the end of the stream |
| SteakWire.ReadVInt | src/main/java/kr/inode/tbon/steak/SteakParser.java:378-388 | `readVInt` consumes at least one byte, and fails only at the end of the stream |
| SteakWire.ReadVLong | src/main/java/kr/inode/tbon/steak/SteakParser.java:390-400 | `readVLong` consumes at least one byte, and fails only at the end of the stream |
| SteakWire.VarNatOfVarUInt | src/main/java/kr/inode/tbon/steak/SteakParser.java:378-388 | reading the varint of n gives n back and leaves exactly what followed it |
| SteakWire.ReadVIntOfVPInt | src/main/java/kr/inode/tbon/steak/SteakParser.java:378-388 | `readVInt` inverts `writeVPInt` for every non-negative `int` |
| SteakWire.ReadVLongOfVPLong | src/main/java/kr/inode/tbon/steak/SteakParser.java:390-400 | `readVLong` inverts `writeVPLong` for every non-negative `long` |
| SteakWire.ReadVSInt | src/main/java/kr/inode/tbon/steak/SteakParser.java:362-376 | `readVSInt` consumes at least one byte, and fails only at the end of the stream |
| SteakWire.VSIntFirstByte | src/main/java/kr/inode/tbon/steak/SteakGenerator.java:36-49 | the first byte of `writeVSInt` holds the sign in 0x40, the low six bits of the magnitude, and 0x80 exactly when more bytes follow |
| SteakWire.ReadVSIntOfFirst | src/main/java/kr/inode/tbon/steak/SteakParser.java:362-376 | `readVSInt` reads the sign from 0x40 of the first byte and negates the magnitude it reads |
| SteakWire.ReadVSIntOfLongMagnitude | src/main/java/kr/inode/tbon/steak/SteakParser.java:362-376 | a sign and a magnitude above six bits read back as the signed value |
| SteakWire.ReadVSIntOfSignMagnitude | src/main/java/kr/inode/tbon/steak/SteakParser.java:362-376 | a sign and any magnitude below 2^31 read back as the signed value |
| SteakWire.ReadVSIntOfVSInt | src/main/java/kr/inode/tbon/steak/SteakParser.java:362-376 | `readVSInt` inverts `writeVSInt` for every `int` except `Integer.MIN_VALUE` |
| SteakWire.BE | src/main/java/kr/inode/tbon/steak/SteakGenerator.java:127-189 | `putShort`/`putInt`/`putLong` write exactly n big-endian bytes |
| SteakWire.FromBE | src/main/java/kr/inode/tbon/steak/SteakParser.java:37-93 | the unsigned value of n big-endian bytes is below 256^n |
| SteakWire.FromBEOfBE | src/main/java/kr/inode/tbon/steak/SteakParser.java:37-93 | the bytes kept by a big-endian write, plus the part above them, make up the value again |
| SteakWire.HighOfSmall | src/main/java/kr/inode/tbon/steak/SteakParser.java:37-93 | a value that fits in n bytes is read back unsigned exactly |
| SteakWire.GetBEOfBE | src/main/java/kr/inode/tbon/steak/SteakParser.java:37-93 | `getShort`/`getInt`/`getLong` of what `putShort`/`putInt`/`putLong` wrote is the value |
| SteakWire.ToTwos | src/main/java/kr/inode/tbon/steak/SteakGenerator.java:243-259 | `BigInteger.toByteArray` has at least one byte |
| SteakWire.TwosValueOfToTwos | src/main/java/kr/inode/tbon/steak/SteakParser.java:410-446 | `new BigInteger(v.toByteArray())` is v |
| SteakWire.ToTwosMinimal | src/main/java/kr/inode/tbon/steak/SteakGenerator.java:243-259 | the two's-complement bytes are minimal: no leading byte is a bare sign extension |
| SteakEncoding.EncodeIntFits | src/main/java/kr/inode/tbon/steak/SteakGenerator.java:146-164 | an `int` takes at most 5 bytes, and a varint-form `int` at most 4 |
| SteakEncoding.EncodeLongFits | src/main/java/kr/inode/tbon/steak/SteakGenerator.java:170-189 | a `long` takes at most 9 bytes, and a varint-form `long` at most 8 |
| SteakEncoding.EncodeCodePointFits | src/main/java/kr/inode/tbon/steak/SteakGenerator.java:229-240 | a code point takes at most 6 bytes |
| SteakEncoding.VSIntLength | src/main/java/kr/inode/tbon/steak/SteakGenerator.java:36-49 | `writeVSInt` writes at most 6 bytes |
| SteakEncoding.EncodeDateTimeFits | src/main/java/kr/inode/tbon/steak/SteakGenerator.java:360-373 | a date-time takes at most 26 bytes |
| SteakEncoding.ScaleTagFits | src/main/java/kr/inode/tbon/steak/SteakGenerator.java:262-294 | a decimal's scale part takes 1 to 6 bytes |
| SteakEncoding.LengthFits | src/main/java/kr/inode/tbon/steak/SteakGenerator.java:67-83 | the varint length of a Java array takes at most 5 bytes |
| SteakEncoding.EncodeOctetFits | src/main/java/kr/inode/tbon/steak/SteakGenerator.java:67-74 | an octet payload is its bytes plus a tag of 1 byte (below 63 bytes) or at most 6 bytes |
| SteakEncoding.EncodeStringFits | src/main/java/kr/inode/tbon/steak/SteakGenerator.java:340-350 | the same for a string's UTF-8 bytes |
| SteakEncoding.EncodeBigIntegerFits | src/main/java/kr/inode/tbon/steak/SteakGenerator.java:243-259 | a `BigInteger` is its bytes plus a 1-byte tag below 15 bytes, and at most 6 bytes of tag otherwise |
| SteakEncoding.EncodeDecimalFits | src/main/java/kr/inode/tbon/steak/SteakGenerator.java:262-294 | a `BigDecimal` is its unscaled bytes plus at most 11 bytes |
| SteakEncoding.EncodeCustomTypeFits | src/main/java/kr/inode/tbon/steak/SteakGenerator.java:452-466 | a custom type name is its bytes plus a 1-byte tag below 16 bytes, and at most 6 bytes of tag otherwise |
| SteakEncoding.EncodeCountFits | src/main/java/kr/inode/tbon/steak/SteakGenerator.java:383-443 | a sized array or object start takes at most 6 bytes |
| SteakGeneration.SteakGenerator.constructor | src/main/java/kr/inode/tbon/steak/SteakGenerator.java:21-24 | a new generator has sent nothing and has written exactly the header |
| SteakGeneration.SteakGenerator.Put | src/main/java/kr/inode/tbon/steak/SteakGenerator.java:32-34 | one byte is appended to what was written; nothing is sent |
| SteakGeneration.SteakGenerator.PutAll | src/main/java/kr/inode/tbon/steak/SteakGenerator.java:127-189 | a bulk `put` appends its bytes; nothing is sent |
| SteakGeneration.SteakGenerator.FlushBuffer | src/main/java/kr/inode/tbon/steak/SteakGenerator.java:85-89 | the channel ends up with all of the bytes, in order, however few it takes per call |
| SteakGeneration.SteakGenerator.Flush | src/main/java/kr/inode/tbon/steak/SteakGenerator.java:91-95 | everything written has been sent and the buffer is empty |
| SteakGeneration.SteakGenerator.EnsureBuffer | src/main/java/kr/inode/tbon/steak/SteakGenerator.java:26-30 | nothing written changes; without enough room the buffer is flushed, and the buffer stays untouched when the room suffices |
| SteakGeneration.SteakGenerator.WriteVPInt | src/main/java/kr/inode/tbon/steak/SteakGenerator.java:51-57 | appends `VPInt(i)` |
| SteakGeneration.SteakGenerator.WriteVPLong | src/main/java/kr/inode/tbon/steak/SteakGenerator.java:59-65 | appends `VPLong(l)` |
| SteakGeneration.SteakGenerator.WriteVarint | src/main/java/kr/inode/tbon/steak/SteakGenerator.java:51-65 | the shared loop appends `Varint(i)` |
| SteakGeneration.SteakGenerator.PutGroup | src/main/java/kr/inode/tbon/steak/SteakGenerator.java:51-57 | one turn of the loop: what was written plus the rest's varint equals the old contents plus the whole varint |
| SteakGeneration.SteakGenerator.PutLast | src/main/java/kr/inode/tbon/steak/SteakGenerator.java:51-57 | the byte after the loop completes the varint |
| SteakGeneration.SteakGenerator.WriteVSInt | src/main/java/kr/inode/tbon/steak/SteakGenerator.java:36-49 | appends `VSInt(i)` |
| SteakGeneration.SteakGenerator.WriteOctetBytes | src/main/java/kr/inode/tbon/steak/SteakGenerator.java:67-74 | appends the bytes, buffered when they fit and sent past the buffer otherwise |
| SteakGeneration.SteakGenerator.Close | src/main/java/kr/inode/tbon/steak/SteakGenerator.java:98-100 | everything written has been sent |
| SteakGeneration.SteakGenerator.WriteNull | src/main/java/kr/inode/tbon/steak/SteakGenerator.java:103-106 | appends `EncodeNull()` |
| SteakGeneration.SteakGenerator.WriteBoolean | src/main/java/kr/inode/tbon/steak/SteakGenerator.java:109-112 | appends `EncodeBoolean(value)` |
| SteakGeneration.SteakGenerator.WriteByte | src/main/java/kr/inode/tbon/steak/SteakGenerator.java:115-124 | appends `EncodeByte(value)` |
| SteakGeneration.SteakGenerator.WriteShort | src/main/java/kr/inode/tbon/steak/SteakGenerator.java:127-140 | appends `EncodeShort(value)` |
| SteakGeneration.SteakGenerator.WriteInt | src/main/java/kr/inode/tbon/steak/SteakGenerator.java:146-164 | appends `EncodeInt(value)` |
| SteakGeneration.SteakGenerator.WriteLong | src/main/java/kr/inode/tbon/steak/SteakGenerator.java:170-189 | appends `EncodeLong(value)` |
| SteakGeneration.SteakGenerator.WriteFloat | src/main/java/kr/inode/tbon/steak/SteakGenerator.java:192-201 | appends `EncodeFloat(bits)`, with both zeros written as the zero tag |
| SteakGeneration.SteakGenerator.WriteDouble | src/main/java/kr/inode/tbon/steak/SteakGenerator.java:204-213 | appends `EncodeDouble(bits)` |
| SteakGeneration.SteakGenerator.WriteChar | src/main/java/kr/inode/tbon/steak/SteakGenerator.java:216-226 | appends `EncodeChar(value)` |
| SteakGeneration.SteakGenerator.WriteCodePoint | src/main/java/kr/inode/tbon/steak/SteakGenerator.java:229-240 | succeeds exactly for valid code points and appends their bytes; otherwise it throws with nothing written or sent |
| SteakGeneration.SteakGenerator.WriteBigInteger | src/main/java/kr/inode/tbon/steak/SteakGenerator.java:243-259 | appends `EncodeBigInteger(value)` |
| SteakGeneration.SteakGenerator.WriteScale | src/main/java/kr/inode/tbon/steak/SteakGenerator.java:262-294 | appends the scale part `ScaleTag(scale)` |
| SteakGeneration.SteakGenerator.WriteDecimal | src/main/java/kr/inode/tbon/steak/SteakGenerator.java:262-294 | appends `EncodeDecimal(unscaled, scale)` |
| SteakGeneration.SteakGenerator.WriteOctet | src/main/java/kr/inode/tbon/steak/SteakGenerator.java:297-313 | appends `EncodeOctet(value)` |
| SteakGeneration.SteakGenerator.WriteString | src/main/java/kr/inode/tbon/steak/SteakGenerator.java:340-350 | appends `EncodeString(utf8)` |
| SteakGeneration.SteakGenerator.WriteCalendar | src/main/java/kr/inode/tbon/steak/SteakGenerator.java:360-373 | appends the date-time of the calendar fields, with the second of day in `int` arithmetic |
| SteakGeneration.SteakGenerator.WriteStartArray | src/main/java/kr/inode/tbon/steak/SteakGenerator.java:376-380 | appends `EncodeStartArray()` |
| SteakGeneration.SteakGenerator.WriteStartArrayCount | src/main/java/kr/inode/tbon/steak/SteakGenerator.java:383-392 | appends `EncodeStartArrayCount(count)` |
| SteakGeneration.SteakGenerator.WriteStartPrimitiveArray | src/main/java/kr/inode/tbon/steak/SteakGenerator.java:395-418 | succeeds exactly for the primitive element types other than `byte`; a reference type throws before anything is sent |
| SteakGeneration.SteakGenerator.WriteEndArray | src/main/java/kr/inode/tbon/steak/SteakGenerator.java:421-424 | appends `EncodeEndArray()` |
| SteakGeneration.SteakGenerator.WriteStartObject | src/main/java/kr/inode/tbon/steak/SteakGenerator.java:427-431 | appends `EncodeStartObject()` |
| SteakGeneration.SteakGenerator.WriteStartObjectCount | src/main/java/kr/inode/tbon/steak/SteakGenerator.java:434-443 | appends `EncodeStartObjectCount(count)` |
| SteakGeneration.SteakGenerator.WriteEndObject | src/main/java/kr/inode/tbon/steak/SteakGenerator.java:446-449 | appends `EncodeEndObject()` |
| SteakGeneration.SteakGenerator.WriteCustomType | src/main/java/kr/inode/tbon/steak/SteakGenerator.java:452-466 | succeeds exactly for a non-empty name and appends its encoding; an empty name throws with nothing written |
| SteakGeneration.SecondOfDay | src/main/java/kr/inode/tbon/steak/SteakGenerator.java:360-373 | for in-range fields, the second of day is hour × 3600 + minute × 60 + second |
| SteakGeneration.IntVarintParts | src/main/java/kr/inode/tbon/steak/SteakGenerator.java:146-164 | the varint form of `write(int)` is a sign tag followed by the magnitude's varint |
| SteakGeneration.LongVarintParts | src/main/java/kr/inode/tbon/steak/SteakGenerator.java:170-189 | the same for `write(long)` |
| SteakGeneration.SignMagnitudeParts | src/main/java/kr/inode/tbon/steak/SteakGenerator.java:36-49 | a magnitude above 0x3f is the first byte followed by the varint of the magnitude shifted by six |
| SteakGeneration.DecimalParts | src/main/java/kr/inode/tbon/steak/SteakGenerator.java:262-294 | scale, byte count and bytes written in turn make up `EncodeDecimal` |
| SteakGeneration.DateTimeParts | src/main/java/kr/inode/tbon/steak/SteakGenerator.java:360-373 | the tag and the four varints written in turn make up `EncodeDateTime` |
| SteakDecoding.Fill | src/main/java/kr/inode/tbon/steak/SteakParser.java:320-335 | `readToBuffer(size)` succeeds exactly when the input holds size bytes and size fits the buffer |
| SteakDecoding.Take | src/main/java/kr/inode/tbon/steak/SteakParser.java:346-360 | succeeds exactly when 0 ≤ n ≤ the bytes left and n fits the buffer, and then gives the first n bytes and the rest; a negative n fails with `NegativeArraySizeException` |
| SteakDecoding.TakeOctet | src/main/java/kr/inode/tbon/steak/SteakParser.java:346-360 | the same, but a length above the buffer fails with `BufferUnderflowException` |
| SteakDecoding.Next | src/main/java/kr/inode/tbon/steak/SteakParser.java:403-473 | `next()` on an exhausted stream fails with end of stream |
| SteakDecoding.ReadHeader | src/main/java/kr/inode/tbon/steak/SteakParser.java:309-318 | succeeds exactly when the input starts with the five header bytes, leaving what follows |
| SteakDecoding.ReadChunks | src/main/java/kr/inode/tbon/steak/SteakParser.java:547-561 | reading chunks consumes at least the terminating zero length |
| SteakParsing.ShiftStep | src/main/java/kr/inode/tbon/steak/SteakParser.java:378-400 | one turn of the read loop adds seven bits at the current weight |
| SteakParsing.PayloadOf | src/main/java/kr/inode/tbon/steak/SteakParser.java:447-472 | a known-length payload is its bytes as `readOctet(len)` takes them, and fails as that does |
| SteakParsing.SteakParser.constructor | src/main/java/kr/inode/tbon/steak/SteakParser.java:292-308 | a new parser has an empty buffer, the whole input unread and the initial fields |
| SteakParsing.SteakParser.Compact | src/main/java/kr/inode/tbon/steak/SteakParser.java:320-335 | `compact()` moves the unread bytes to the front and counts them |
| SteakParsing.SteakParser.Receive | src/main/java/kr/inode/tbon/steak/SteakParser.java:320-335 | one `in.read`: -1 exactly at the end of the channel, otherwise as many bytes as fit, appended in order |
| SteakParsing.SteakParser.ReadToBuffer | src/main/java/kr/inode/tbon/steak/SteakParser.java:320-335 | succeeds as `Fill` says, and then the bytes are in the buffer and nothing is consumed |
| SteakParsing.SteakParser.Get | src/main/java/kr/inode/tbon/steak/SteakParser.java:309-318 | reads n bytes as `Take` says |
| SteakParsing.SteakParser.ReadByte | src/main/java/kr/inode/tbon/steak/SteakParser.java:341-344 | fails exactly at the end of the stream, else consumes and returns the first byte |
| SteakParsing.SteakParser.ReadOctetOf | src/main/java/kr/inode/tbon/steak/SteakParser.java:346-360 | reads len bytes as `TakeOctet` says |
| SteakParsing.SteakParser.ReadVarNat | src/main/java/kr/inode/tbon/steak/SteakParser.java:378-400 | the read loop agrees with `VarNat` |
| SteakParsing.SteakParser.ReadVInt | src/main/java/kr/inode/tbon/steak/SteakParser.java:378-388 | agrees with `SteakWire.ReadVInt` |
| SteakParsing.SteakParser.ReadVLong | src/main/java/kr/inode/tbon/steak/SteakParser.java:390-400 | agrees with `SteakWire.ReadVLong` |
| SteakParsing.SteakParser.ReadVSInt | src/main/java/kr/inode/tbon/steak/SteakParser.java:362-376 | agrees with `SteakWire.ReadVSInt` |
| SteakParsing.SteakParser.ParseZero | src/main/java/kr/inode/tbon/steak/SteakParser.java:26-35 | family 0 sets a zero of the tag's width and consumes nothing |
| SteakParsing.SteakParser.ParseFull | src/main/java/kr/inode/tbon/steak/SteakParser.java:37-93 | family 1 agrees with `FullFamily` |
| SteakParsing.SteakParser.ParseSigned | src/main/java/kr/inode/tbon/steak/SteakParser.java:43-58 | cases 0–3 agree with `Signed` |
| SteakParsing.SteakParser.ParseUnsigned8 | src/main/java/kr/inode/tbon/steak/SteakParser.java:59-66 | `uint8` agrees with `Unsigned8` |
| SteakParsing.SteakParser.ParseUnsigned16 | src/main/java/kr/inode/tbon/steak/SteakParser.java:67-73 | `uint16`, including its fallthrough, agrees with `Unsigned16` |
| SteakParsing.SteakParser.ParseUnsigned32 | src/main/java/kr/inode/tbon/steak/SteakParser.java:74-80 | `uint32`, including its fallthrough, agrees with `Unsigned32` |
| SteakParsing.SteakParser.ParseUnsigned64 | src/main/java/kr/inode/tbon/steak/SteakParser.java:81-92 | `uint64` agrees with `Unsigned64` |
| SteakParsing.SteakParser.ParseVar | src/main/java/kr/inode/tbon/steak/SteakParser.java:95-136 | family 2 agrees with `VarFamily` |
| SteakParsing.SteakParser.ParseSingleton | src/main/java/kr/inode/tbon/steak/SteakParser.java:138-174 | family 3 agrees with `SingletonFamily` |
| SteakParsing.SteakParser.ParseTimeChar | src/main/java/kr/inode/tbon/steak/SteakParser.java:176-223 | family 4 agrees with `TimeCharFamily` |
| SteakParsing.SteakParser.ParseDateTime | src/main/java/kr/inode/tbon/steak/SteakParser.java:185-200 | the date-time body agrees with `DateTimeBody` |
| SteakParsing.SteakParser.ParsePrimitiveArray | src/main/java/kr/inode/tbon/steak/SteakParser.java:225-255 | family 5 agrees with `PrimitiveArrayFamily` |
| SteakParsing.SteakParser.ParseDecimalBody | src/main/java/kr/inode/tbon/steak/SteakParser.java:257-272 | a decimal's byte count and bytes agree with `DecimalBody` |
| SteakParsing.SteakParser.ParseDecimal | src/main/java/kr/inode/tbon/steak/SteakParser.java:257-290 | families 6 and 7 agree with `PositiveScaleFamily` and `NegativeScaleFamily` |
| SteakParsing.SteakParser.ParseVariableLength | src/main/java/kr/inode/tbon/steak/SteakParser.java:410-446 | tags 0x40–0x7f agree with `VariableLength` |
| SteakParsing.SteakParser.ReadNibbleLength | src/main/java/kr/inode/tbon/steak/SteakParser.java:410-446 | the nibble or varint length agrees with `NibbleLength` |
| SteakParsing.SteakParser.ParseVariableBody | src/main/java/kr/inode/tbon/steak/SteakParser.java:410-446 | a BigInteger, custom type name, array or object agrees with `VariableBody` |
| SteakParsing.SteakParser.ParseOctetOrString | src/main/java/kr/inode/tbon/steak/SteakParser.java:447-472 | tags 0x80–0xff agree with `OctetOrString` |
| SteakParsing.SteakParser.ParsePayload | src/main/java/kr/inode/tbon/steak/SteakParser.java:447-472 | a known-length payload agrees with `Payload` |
| SteakParsing.SteakParser.Next | src/main/java/kr/inode/tbon/steak/SteakParser.java:403-473 | `next()` agrees with `SteakDecoding.Next` in its outcome, its new fields and what it leaves unread |
| SteakParsing.SteakParser.ReadChunks | src/main/java/kr/inode/tbon/steak/SteakParser.java:547-561 | the chunk loop agrees with `SteakDecoding.ReadChunks` |
| SteakParsing.SteakParser.ReadOctet | src/main/java/kr/inode/tbon/steak/SteakParser.java:547-561 | `readOctet()` agrees with `SteakDecoding.ReadOctet` |
| SteakParsing.SteakParser.ReadString | src/main/java/kr/inode/tbon/steak/SteakParser.java:564-569 | `readString()` agrees with `SteakDecoding.ReadString` |
| SteakParsing.SteakParser.GetBoolean | src/main/java/kr/inode/tbon/steak/SteakParser.java:487-489 | `getBoolean()` is whether the current token is `True` |
| SteakParsing.SteakParser.Open | src/main/java/kr/inode/tbon/steak/SteakParser.java:309-318 | the constructor succeeds exactly when the input starts with the header, and leaves what follows it unread |
| SteakRoundTrip.NextOfTag | src/main/java/kr/inode/tbon/steak/SteakParser.java:403-473 | `next()` on a tag byte dispatches on its two top bits |
| SteakRoundTrip.CompactOfSigned | src/main/java/kr/inode/tbon/steak/SteakParser.java:43-58 | tags 0x08–0x0b read a signed integer of 1, 2, 4 or 8 bytes |
| SteakRoundTrip.CompactOfSingleton | src/main/java/kr/inode/tbon/steak/SteakParser.java:138-174 | tags 0x18–0x1f are read by the singleton family |
| SteakRoundTrip.SignedBody | src/main/java/kr/inode/tbon/steak/SteakParser.java:43-58 | a fixed-width integer reads exactly its width of bytes |
| SteakRoundTrip.FloatingBody | src/main/java/kr/inode/tbon/steak/SteakParser.java:138-174 | a float or double reads exactly 4 or 8 bytes of bits |
| SteakRoundTrip.NextOfNull | src/main/java/kr/inode/tbon/steak/SteakGenerator.java:103-106 | `writeNull` reads back as a `Null` token, consuming exactly its byte |
| SteakRoundTrip.NextOfBoolean | src/main/java/kr/inode/tbon/steak/SteakGenerator.java:109-112 | a boolean reads back as `True` or `False` |
| SteakRoundTrip.NextOfEnd | src/main/java/kr/inode/tbon/steak/SteakGenerator.java:421-449 | the end of an array or an object reads back as `EndOfStructure` |
| SteakRoundTrip.NextOfByte | src/main/java/kr/inode/tbon/steak/SteakGenerator.java:115-124 | a byte reads back as an `Int8` of that value |
| SteakRoundTrip.NextOfShort | src/main/java/kr/inode/tbon/steak/SteakGenerator.java:127-140 | a short reads back as an `Int16` of that value, whichever form was written |
| SteakRoundTrip.NextOfFixedInt | src/main/java/kr/inode/tbon/steak/SteakGenerator.java:146-164 | the fixed-width form of an `int` reads back as that `Int32` |
| SteakRoundTrip.NextOfFixedLong | src/main/java/kr/inode/tbon/steak/SteakGenerator.java:170-189 | the fixed-width form of a `long` reads back as that `Int64` |
| SteakRoundTrip.NextOfInt | src/main/java/kr/inode/tbon/steak/SteakGenerator.java:146-164 | every `int` reads back as an `Int32` of that value |
| SteakRoundTrip.NextOfLong | src/main/java/kr/inode/tbon/steak/SteakGenerator.java:170-189 | every `long` reads back as an `Int64` of that value |
| SteakRoundTrip.NextOfFloat | src/main/java/kr/inode/tbon/steak/SteakGenerator.java:192-201 | a float reads back with its bits, except that negative zero reads back as +0 |
| SteakRoundTrip.NextOfDouble | src/main/java/kr/inode/tbon/steak/SteakGenerator.java:204-213 | a double reads back with its bits, except that negative zero reads back as +0 |
| SteakRoundTrip.NextOfChar | src/main/java/kr/inode/tbon/steak/SteakGenerator.java:216-226 | a `char` reads back as a `Character` token in `charValue` |
| SteakRoundTrip.NextOfSupplementaryCodePoint | src/main/java/kr/inode/tbon/steak/SteakGenerator.java:229-240 | a supplementary code point reads back in `intValue`, and `getChar()` still returns the previous `char` |
| SteakRoundTrip.ReadLengthOf | src/main/java/kr/inode/tbon/steak/SteakParser.java:346-388 | a varint length followed by the payload reads back that length and that payload |
| SteakRoundTrip.NextOfCompact | src/main/java/kr/inode/tbon/steak/SteakParser.java:403-409 | a tag below 0x40 is read by its compact family |
| SteakRoundTrip.NextOfVariable | src/main/java/kr/inode/tbon/steak/SteakParser.java:410-446 | a tag in 0x40–0x7f is read by the variable-length family |
| SteakRoundTrip.NextOfPayloadTag | src/main/java/kr/inode/tbon/steak/SteakParser.java:447-472 | a tag of 0x80 or more is read by the octet/string family |
| SteakRoundTrip.NibbleOfVarUInt | src/main/java/kr/inode/tbon/steak/SteakParser.java:410-446 | a low nibble of 15 reads the length from the varint that follows |
| SteakRoundTrip.ShortBigIntegerOf | src/main/java/kr/inode/tbon/steak/SteakParser.java:410-446 | a `BigInteger` of fewer than 15 bytes reads its length from the tag |
| SteakRoundTrip.LongBigIntegerOf | src/main/java/kr/inode/tbon/steak/SteakParser.java:410-446 | a `BigInteger` of 15 bytes or more reads its length from the varint |
| SteakRoundTrip.NextOfShortBigInteger | src/main/java/kr/inode/tbon/steak/SteakGenerator.java:243-259 | a short `BigInteger` reads back as that value |
| SteakRoundTrip.NextOfLongBigInteger | src/main/java/kr/inode/tbon/steak/SteakGenerator.java:243-259 | a long `BigInteger` reads back as that value |
| SteakRoundTrip.NextOfBigInteger | src/main/java/kr/inode/tbon/steak/SteakGenerator.java:243-259 | every `BigInteger` whose bytes fit the parser's buffer reads back as an `Integer` token of that value |
| SteakRoundTrip.DecimalBodyOfBytes | src/main/java/kr/inode/tbon/steak/SteakParser.java:257-290 | the byte count and bytes of an unscaled value read back as that value |
| SteakRoundTrip.SmallScaleReadBack | src/main/java/kr/inode/tbon/steak/SteakParser.java:257-272 | scales 0 to 6 are read from the tag |
| SteakRoundTrip.LargeScaleReadBack | src/main/java/kr/inode/tbon/steak/SteakParser.java:257-272 | scales of 7 or more are read from the varint after tag 0x37 |
| SteakRoundTrip.SmallNegativeScaleReadBack | src/main/java/kr/inode/tbon/steak/SteakParser.java:274-290 | scales -7 to -1 are read from the tag |
| SteakRoundTrip.LargeNegativeScaleReadBack | src/main/java/kr/inode/tbon/steak/SteakParser.java:274-290 | scales below -7 are read as minus the varint after tag 0x38 |
| SteakRoundTrip.ScaleTagReadBack | src/main/java/kr/inode/tbon/steak/SteakGenerator.java:262-294 | every scale except `Integer.MIN_VALUE` is read back from its scale part |
| SteakRoundTrip.NextOfScaledDecimal | src/main/java/kr/inode/tbon/steak/SteakGenerator.java:262-294 | a nonzero `BigDecimal` whose unscaled bytes fit the 8192-byte buffer and whose scale is not `Integer.MIN_VALUE` reads back with its unscaled value and scale |
| SteakRoundTrip.NextOfDecimal | src/main/java/kr/inode/tbon/steak/SteakGenerator.java:262-294 | every `BigDecimal` whose bytes fit the buffer and whose scale is not `Integer.MIN_VALUE` reads back as a `Decimal` of that value and scale |
| SteakRoundTrip.MinScaleMisread | src/main/java/kr/inode/tbon/steak/SteakGenerator.java:262-294 | with scale `Integer.MIN_VALUE`, the lone tag 0x38 makes the parser read the byte count as the scale |
| SteakRoundTrip.PayloadOf | src/main/java/kr/inode/tbon/steak/SteakParser.java:447-472 | a payload that fits the buffer reads back whole, and not as a chunked stream |
| SteakRoundTrip.ShortPayloadOf | src/main/java/kr/inode/tbon/steak/SteakParser.java:447-472 | a payload whose length is in the low six bits of its tag |
| SteakRoundTrip.LongPayloadOf | src/main/java/kr/inode/tbon/steak/SteakParser.java:447-472 | a payload with a nonzero varint length |
| SteakRoundTrip.NextOfOctet | src/main/java/kr/inode/tbon/steak/SteakGenerator.java:297-313 | an octet payload that fits the parser's buffer reads back as an `Octet` token holding those bytes |
| SteakRoundTrip.NextOfString | src/main/java/kr/inode/tbon/steak/SteakGenerator.java:340-350 | a string whose bytes fit the buffer reads back as a `String` token holding those bytes |
| SteakRoundTrip.DateTimeFieldsOf | src/main/java/kr/inode/tbon/steak/SteakParser.java:185-200 | the four varints of a date-time read back as year, day, second and milliseconds |
| SteakRoundTrip.NanosOfMillis | src/main/java/kr/inode/tbon/steak/SteakParser.java:185-200 | a non-negative millisecond count survives the conversion to nanoseconds and back |
| SteakRoundTrip.CompactOfDateTime | src/main/java/kr/inode/tbon/steak/SteakParser.java:176-223 | tag 0x22 reads a date-time |
| SteakRoundTrip.NextOfDateTime | src/main/java/kr/inode/tbon/steak/SteakGenerator.java:360-373 | a calendar's four fields read back as a `DateTime` token |
| SteakRoundTrip.NextOfStartArray | src/main/java/kr/inode/tbon/steak/SteakGenerator.java:376-380 | an unsized array start reads back as an `Array` of count -1 |
| SteakRoundTrip.NextOfStartObject | src/main/java/kr/inode/tbon/steak/SteakGenerator.java:427-431 | an unsized object start reads back as an `Object` of count -1 |
| SteakRoundTrip.LongCountOf | src/main/java/kr/inode/tbon/steak/SteakParser.java:410-446 | a count of 15 or more is read from the varint after the tag |
| SteakRoundTrip.NextOfStartArrayCount | src/main/java/kr/inode/tbon/steak/SteakGenerator.java:383-392 | a non-negative array count reads back as that count |
| SteakRoundTrip.NextOfStartObjectCount | src/main/java/kr/inode/tbon/steak/SteakGenerator.java:434-443 | a non-negative object count reads back as that count |
| SteakRoundTrip.NegativeCountMisread | src/main/java/kr/inode/tbon/steak/SteakGenerator.java:383-392 | a count of -1 is written as tag 0x5f, which reads as a custom type |
| SteakRoundTrip.NextOfStartPrimitiveArray | src/main/java/kr/inode/tbon/steak/SteakGenerator.java:395-418 | no count is written after the tag, so the parser takes the varint at the front of what follows as the element count |
| SteakRoundTrip.PrimitiveArrayCountLost | src/main/java/kr/inode/tbon/steak/SteakGenerator.java:395-418 | an `int[]` of 1, 2, 3 reads back with an element count of 16 |
| SteakRoundTrip.CustomTypeBodyOf | src/main/java/kr/inode/tbon/steak/SteakParser.java:410-446 | a custom type reads exactly the number of name bytes its length gives |
| SteakRoundTrip.NextOfCustomType | src/main/java/kr/inode/tbon/steak/SteakGenerator.java:452-466 | the length written is the name's length minus one, so the name reads back without its last byte, and that byte is left in the stream |
| SteakRoundTrip.ReadHeaderOfHeader | src/main/java/kr/inode/tbon/steak/SteakParser.java:309-318 | the header the generator writes is accepted, and exactly what follows it is left |
| SteakParserFacts.Chunked | src/main/java/kr/inode/tbon/steak/SteakParser.java:547-561 | the wire form of the chunks is at least as long as their bytes |
| SteakParserFacts.ReadChunksOf | src/main/java/kr/inode/tbon/steak/SteakParser.java:547-561 | chunks of positive length that fit the buffer, ended by a zero length, read back as their concatenation |
| SteakParserFacts.ReadChunksEnd | src/main/java/kr/inode/tbon/steak/SteakParser.java:547-561 | a zero length ends the chunks |
| SteakParserFacts.ReadChunksStep | src/main/java/kr/inode/tbon/steak/SteakParser.java:547-561 | one chunk is its length and its bytes, followed by the rest of the chunks |
| SteakParserFacts.NextOfStreamStart | src/main/java/kr/inode/tbon/steak/SteakParser.java:447-472 | tags 0xbf and 0xff with a zero length start a streamed payload with `inStream` set |
| SteakParserFacts.StreamedStringReadsBack | src/main/java/kr/inode/tbon/steak/SteakParser.java:564-569 | a streamed string reads back by `readString()` as the concatenated chunks and clears `inStream` |
| SteakParserFacts.StreamedOctetReadsBack | src/main/java/kr/inode/tbon/steak/SteakParser.java:547-561 | a streamed octet payload reads back by `readOctet()` as the concatenated chunks |
| SteakParserFacts.PayloadTokenOf | src/main/java/kr/inode/tbon/steak/SteakParser.java:447-472 | a tag with the top bit set gives `Octet` when bit 6 is clear and `String` when it is set |
| SteakParserFacts.InStreamOnlyAtStreamStart | src/main/java/kr/inode/tbon/steak/SteakParser.java:447-472 | `inStream` is set only by tag 0xbf or 0xff followed by a zero varint |
| SteakParserFacts.CompactKeepsInStream | src/main/java/kr/inode/tbon/steak/SteakParser.java:26-290 | the compact families leave `inStream` as it was |
| SteakParserFacts.Unsigned16Keeps | src/main/java/kr/inode/tbon/steak/SteakParser.java:67-73 | `uint16` leaves `inStream` as it was |
| SteakParserFacts.Unsigned32Keeps | src/main/java/kr/inode/tbon/steak/SteakParser.java:74-80 | `uint32` leaves `inStream` as it was |
| SteakParserFacts.NextOfUnsignedByte | src/main/java/kr/inode/tbon/steak/SteakParser.java:59-66 | tag 0x0c reads the byte unsigned, widened to `Int16` above 0x7f |
| SteakParserFacts.UnsignedShortRunsOn | src/main/java/kr/inode/tbon/steak/SteakParser.java:67-92 | tag 0x0d, with no `break`, goes on to read 4 and then 8 more bytes: it consumes 14 bytes, and fails on a stream holding only its own two |
| LinkedMaps.Keys | src/main/java/kr/inode/tbon/mapper/TBONReader.java:273-288 | the keys of a map are its entries' keys, in order |
| LinkedMaps.Empty | src/main/java/kr/inode/tbon/mapper/TBONReader.java:278 | a new map has no keys |
| LinkedMaps.IndexOf | src/main/java/kr/inode/tbon/mapper/TBONReader.java:284 | the position of a key is its first entry |
| LinkedMaps.Get | src/main/java/kr/inode/tbon/mapper/TypeHandlerRegistryImpl.java:92-95 | `get` finds a value exactly for the keys present |
| LinkedMaps.Put | src/main/java/kr/inode/tbon/mapper/TypeHandlerRegistryImpl.java:92-95 | `put` keeps an existing key in place and adds a new one last, and the key then maps to the new value |
| LinkedMaps.PutOther | src/main/java/kr/inode/tbon/mapper/TBONReader.java:284 | `put` leaves every other key's value alone |
| LinkedMaps.GetPut | src/main/java/kr/inode/tbon/mapper/TBONReader.java:284 | `get` after `put` gives the new value for the key put and the old value for every other key |
| TbonToken.PrimitiveArrayToken | src/main/java/kr/inode/tbon/TBONToken.java:86-110 | each element kind has its own typed-array token |
| TbonToken.PrimitiveArrayKindOf | src/main/java/kr/inode/tbon/TBONToken.java:86-110 | the kind of a typed-array token inverts `PrimitiveArrayToken` |
| TbonReading.Step | src/main/java/kr/inode/tbon/TBONParser.java:13 | `next()` moves one token on while tokens remain, and otherwise stays |
| TbonReading.ScalarOf | src/main/java/kr/inode/tbon/mapper/TBONReader.java:39-134 | each scalar token reads as its accessor's value; a failure is only a class cast or a null date |
| TbonReading.ReadOctetOf | src/main/java/kr/inode/tbon/steak/SteakParser.java:547-561 | `readOctet()` moves no token |
| TbonReading.StringOf | src/main/java/kr/inode/tbon/mapper/TBONReader.java:153-158 | `readString()` moves no token |
| TbonReading.OctetOf | src/main/java/kr/inode/tbon/mapper/TBONReader.java:135-152 | reading an octet payload moves no token |
| TbonReading.PrimitiveElements | src/main/java/kr/inode/tbon/mapper/TBONReader.java:159-256 | the fill loop always succeeds and only moves forward |
| TbonReading.PrimitiveArrayOf | src/main/java/kr/inode/tbon/mapper/TBONReader.java:159-256 | a typed array fails exactly when its count is negative, with `NegativeArraySizeException` |
| TbonReading.KeyOf | src/main/java/kr/inode/tbon/mapper/TBONReader.java:284 | a key must be a `String` or `null`; anything else is a class cast |
| TbonReading.FirstReadable | src/main/java/kr/inode/tbon/mapper/TBONReader.java:301-307 | the first reader that can read the name, with no earlier one able to |
| TbonReading.Resolve | src/main/java/kr/inode/tbon/mapper/TBONReader.java:294-307 | the explicit map wins; with no resolved reader, none of the registered readers can read the name |
| TbonReading.Current | src/main/java/kr/inode/tbon/mapper/TBONReader.java:413-415 | `NotAvailable` and a stray `EndOfStructure` fail; an `Array` or `Object` whose count the collection cannot be sized for fails with `IllegalArgumentException`; a value only moves forward |
| TbonReading.NextOf | src/main/java/kr/inode/tbon/mapper/TBONReader.java:404-410 | fails with "no more value" when no token is left; otherwise it moves at least one token |
| TbonReading.MapSizableCounts | src/main/java/kr/inode/tbon/mapper/TBONReader.java:277-278 | `len * 2` wraps as `int`: a map can be sized exactly for counts -1, 0 to 2^30 - 1, and below -2^30 |
| TbonReading.ArrayOf | src/main/java/kr/inode/tbon/mapper/TBONReader.java:260-262 | an `Array` count other than -1 below zero throws `IllegalArgumentException` before any token is read; otherwise the loop runs |
| TbonReading.ObjectOf | src/main/java/kr/inode/tbon/mapper/TBONReader.java:276-278 | an `Object` count whose doubling is a negative `int` throws `IllegalArgumentException` before any token is read; otherwise the loop runs |
| TbonReading.ArrayItems | src/main/java/kr/inode/tbon/mapper/TBONReader.java:257-272 | the array loop only moves forward |
| TbonReading.ObjectEntries | src/main/java/kr/inode/tbon/mapper/TBONReader.java:273-288 | the object loop only moves forward |
| TbonReading.CustomTypeOf | src/main/java/kr/inode/tbon/mapper/TBONReader.java:289-359 | a custom type only moves forward |
| TbonReading.TbonReader.constructor | src/main/java/kr/inode/tbon/mapper/TBONReader.java:393-398 | the reader holds the parser and the handlers it was given |
| TbonReading.TbonReader.Next | src/main/java/kr/inode/tbon/TBONParser.java:13 | returns true exactly when a token was left, and moves as `Step` does |
| TbonReading.TbonReader.CurrentValue | src/main/java/kr/inode/tbon/mapper/TBONReader.java:413-415 | the value and the new position are those of `Current` |
| TbonReading.TbonReader.NextValue | src/main/java/kr/inode/tbon/mapper/TBONReader.java:404-410 | the value and the new position are those of `NextOf` |
| TbonReading.TbonReader.ReadOctetValue | src/main/java/kr/inode/tbon/mapper/TBONReader.java:135-152 | agrees with `OctetOf` |
| TbonReading.TbonReader.ReadStringValue | src/main/java/kr/inode/tbon/mapper/TBONReader.java:153-158 | agrees with `StringOf` |
| TbonReading.TbonReader.ReadPrimitiveArray | src/main/java/kr/inode/tbon/mapper/TBONReader.java:159-256 | the fill loop into a new array agrees with `PrimitiveArrayOf` |
| TbonReading.TbonReader.ReadArray | src/main/java/kr/inode/tbon/mapper/TBONReader.java:257-272 | the sizing check, then the `while (next())` loop, agree with `ArrayOf` |
| TbonReading.TbonReader.ReadObject | src/main/java/kr/inode/tbon/mapper/TBONReader.java:273-288 | the sizing check, then the key/value loop, agree with `ObjectOf` |
| TbonReading.TbonReader.ReadCustomType | src/main/java/kr/inode/tbon/mapper/TBONReader.java:289-359 | agrees with `CustomTypeOf` |
| TbonReadingFacts.Skip | src/main/java/kr/inode/tbon/TBONParser.java:13 | n calls of `next()` move n tokens, or up to the last token |
| TbonReadingFacts.SkipStep | src/main/java/kr/inode/tbon/TBONParser.java:13 | one `next()` then i more is i + 1 |
| TbonReadingFacts.Scalars | src/main/java/kr/inode/tbon/mapper/TBONReader.java:39-134 | one value per scalar token |
| TbonReadingFacts.ScalarReadsInPlace | src/main/java/kr/inode/tbon/mapper/TBONReader.java:39-134 | a scalar token is its accessor's value, and reading it moves no token |
| TbonReadingFacts.ArrayItemsOfScalars | src/main/java/kr/inode/tbon/mapper/TBONReader.java:257-272 | the loop over scalars then `EndOfStructure` appends them in order and stops on the terminator |
| TbonReadingFacts.ArrayOfScalars | src/main/java/kr/inode/tbon/mapper/TBONReader.java:257-272 | an array of scalar tokens whose count the list can be sized for reads as the list of those scalars in stream order, and stops on the terminator |
| TbonReadingFacts.ArrayCountIgnored | src/main/java/kr/inode/tbon/mapper/TBONReader.java:261-262 | beyond sizing the list, the declared count plays no part: any two counts the list can be sized for read the same |
| TbonReadingFacts.ArrayEndsWithTokens | src/main/java/kr/inode/tbon/mapper/TBONReader.java:263 | with a count the list can be sized for, when `next()` returns false the list ends with what it has |
| TbonReadingFacts.ArrayItemsOfReads | src/main/java/kr/inode/tbon/mapper/TBONReader.java:263-269 | when each `next()` lands on a value `currentValue()` reads, nested ones included, and the last lands on `EndOfStructure`, the loop appends those values in order |
| TbonReadingFacts.ArrayOfReads | src/main/java/kr/inode/tbon/mapper/TBONReader.java:257-272 | an `Array` of any values, nested arrays and objects included, reads as the list of those values and stops on its terminator |
| TbonReadingFacts.UnsizableCounts | src/main/java/kr/inode/tbon/mapper/TBONReader.java:262-278 | an `Array` of count -2 or below, and an `Object` of count -2^30 to -2 or of 2^30 and above, fail with `IllegalArgumentException`; an `Object` count below -2^30 reads on |
| TbonReadingFacts.ArrayItemsToEnd | src/main/java/kr/inode/tbon/mapper/TBONReader.java:263-269 | the loop over scalars with no terminator reads them all and stops on the last token |
| TbonReadingFacts.ObjectEntriesStep | src/main/java/kr/inode/tbon/mapper/TBONReader.java:279-285 | one key and scalar value are `put`, and the loop goes on from the value token |
| TbonReadingFacts.ObjectEntriesEnd | src/main/java/kr/inode/tbon/mapper/TBONReader.java:279-282 | `EndOfStructure` ends the loop with the entries so far |
| TbonReadingFacts.ObjectEntriesOfPairs | src/main/java/kr/inode/tbon/mapper/TBONReader.java:279-286 | the loop over key/value pairs `put`s them in stream order |
| TbonReadingFacts.ObjectOfPairs | src/main/java/kr/inode/tbon/mapper/TBONReader.java:273-288 | an object of key and value tokens whose count the map can be sized for reads as the insertion-ordered map of those entries |
| TbonReadingFacts.PutEntriesOther | src/main/java/kr/inode/tbon/mapper/TBONReader.java:284 | a key that no entry has keeps its value |
| TbonReadingFacts.LastEntryWins | src/main/java/kr/inode/tbon/mapper/TBONReader.java:284 | a key that occurs several times keeps the value of its last entry |
| TbonReadingFacts.Elements | src/main/java/kr/inode/tbon/mapper/TBONReader.java:159-256 | n elements are taken from n tokens |
| TbonReadingFacts.PrimitiveElementsAre | src/main/java/kr/inode/tbon/mapper/TBONReader.java:166-169 | the fill loop appends the n elements and moves n tokens |
| TbonReadingFacts.ElementsAt | src/main/java/kr/inode/tbon/mapper/TBONReader.java:166-169 | element i comes from the token i places on |
| TbonReadingFacts.PrimitiveArrayReads | src/main/java/kr/inode/tbon/mapper/TBONReader.java:159-256 | a typed array of count n has exactly n elements, the i-th from the token i + 1 places on, and leaves the parser n + 1 tokens on; the result of `next()` is not checked |
| TbonReadingFacts.PrimitiveArrayNegativeCount | src/main/java/kr/inode/tbon/mapper/TBONReader.java:163-164 | a negative count fails as `new T[-1]` does |
| TbonReadingFacts.OctetInMemoryOrSpooled | src/main/java/kr/inode/tbon/mapper/TBONReader.java:135-152 | an octet payload is read in memory when its count is known and below 32 KiB, and spooled otherwise |
| TbonReadingFacts.StreamedStringEndsStream | src/main/java/kr/inode/tbon/mapper/TBONReader.java:153-158 | a streamed string reads as its chunks, ends the stream and moves no token |
| TbonReadingFacts.CustomTypeResolution | src/main/java/kr/inode/tbon/mapper/TBONReader.java:289-359 | the explicit map first, then the first reader that can read the name, then a loadable class filled from the object that follows; otherwise the type cannot be read |
| TbonReadingFacts.PojoOfPairs | src/main/java/kr/inode/tbon/mapper/TBONReader.java:309-357 | a loadable custom type that no reader resolves, followed by an object of entries, reads as that class holding the entries in stream order |
| TbonWriting.GuardLabels | src/main/java/kr/inode/tbon/mapper/TBONWriter.java:257 | the guard's `equals` classes are classes of the heap |
| TbonWriting.PushLabels | src/main/java/kr/inode/tbon/mapper/TBONWriter.java:281 | `guard.push` adds the object's `equals` class |
| TbonWriting.PushShrinks | src/main/java/kr/inode/tbon/mapper/TBONWriter.java:275-281 | pushing an object not on the guard leaves room for fewer classes, which is why `writeObject` ends on every graph |
| TbonWriting.Pushed | src/main/java/kr/inode/tbon/mapper/TBONWriter.java:281 | after the push the object is on top of the old guard, and no equal object is below it |
| TbonWriting.Done | src/main/java/kr/inode/tbon/mapper/TBONWriter.java:274-278 | a trace of bytes only throws nothing |
| TbonWriting.Then | src/main/java/kr/inode/tbon/mapper/TBONWriter.java:274-402 | an exception in the first part skips the second; otherwise outputs and closes concatenate |
| TbonWriting.Framed | src/main/java/kr/inode/tbon/mapper/TBONWriter.java:188-232 | the end marker is written only when the body ends normally |
| TbonWriting.PrimsSnoc | src/main/java/kr/inode/tbon/mapper/TBONWriter.java:98-180 | the elements of a primitive array are written one after the other |
| TbonWriting.ExplicitWriter | src/main/java/kr/inode/tbon/mapper/TBONWriter.java:285-293 | a writer is found exactly when there is a map holding the class |
| TbonWriting.FirstWritable | src/main/java/kr/inode/tbon/mapper/TBONWriter.java:297-303 | the first writer whose `canWrite` holds, with none before it |
| TbonWriting.MultiWriter | src/main/java/kr/inode/tbon/mapper/TBONWriter.java:296-304 | a registered writer that can write the class, or none can |
| TbonWriting.FirstIn | src/main/java/kr/inode/tbon/mapper/TBONWriter.java:313-319 | the first interface in the table's order that the class implements |
| TbonWriting.FirstIface | src/main/java/kr/inode/tbon/mapper/TBONWriter.java:313-319 | an interface the class implements, or none of the table's |
| TbonWriting.AutoClose | src/main/java/kr/inode/tbon/mapper/TBONWriter.java:404-412 | writes nothing, closes exactly an `AutoCloseable`, and fails exactly when its `close` throws |
| TbonWriting.Write | src/main/java/kr/inode/tbon/mapper/TBONWriter.java:274-402 | every object closed is `AutoCloseable` and is not one an enclosing write holds |
| TbonWriting.Dispatch | src/main/java/kr/inode/tbon/mapper/TBONWriter.java:283-398 | the same for the writer search |
| TbonWriting.IfaceWrite | src/main/java/kr/inode/tbon/mapper/TBONWriter.java:188-250 | the same for the interface writers |
| TbonWriting.MapWrite | src/main/java/kr/inode/tbon/mapper/TBONWriter.java:188-199 | the same for a map |
| TbonWriting.ListWrite | src/main/java/kr/inode/tbon/mapper/TBONWriter.java:200-210 | the same for a collection or an array of objects |
| TbonWriting.IterableWrite | src/main/java/kr/inode/tbon/mapper/TBONWriter.java:223-232 | the same for an iterable |
| TbonWriting.PojoWrite | src/main/java/kr/inode/tbon/mapper/TBONWriter.java:332-398 | the same for a plain object |
| TbonWriting.Elems | src/main/java/kr/inode/tbon/mapper/TBONWriter.java:205-207 | the same for the element loop |
| TbonWriting.Entries | src/main/java/kr/inode/tbon/mapper/TBONWriter.java:193-196 | the same for the entry loop |
| TbonWriting.Props | src/main/java/kr/inode/tbon/mapper/TBONWriter.java:378-396 | the same for the property loop |
| TbonWriting.AppliedThen | src/main/java/kr/inode/tbon/mapper/TBONWriter.java:274-402 | a part that ends normally, then the rest |
| TbonWriting.EmittedAfter | src/main/java/kr/inode/tbon/mapper/TBONWriter.java:192-195 | writing bytes first and then the rest is their concatenation |
| TbonWriting.FramedSteps | src/main/java/kr/inode/tbon/mapper/TBONWriter.java:202-208 | start marker, body, end marker written in turn make up the framed trace |
| TbonWriting.LoopStep | src/main/java/kr/inode/tbon/mapper/TBONWriter.java:205-207 | after one step, either its exception ends everything or the rest follows |
| TbonWriting.PairLoopStep | src/main/java/kr/inode/tbon/mapper/TBONWriter.java:193-196 | the same for a step that first writes a name |
| TbonWriting.ElemsStep | src/main/java/kr/inode/tbon/mapper/TBONWriter.java:205-207 | one element is written, then the rest unless it threw |
| TbonWriting.EntriesStep | src/main/java/kr/inode/tbon/mapper/TBONWriter.java:193-196 | one entry is its key string and value, then the rest unless it threw |
| TbonWriting.PropsStep | src/main/java/kr/inode/tbon/mapper/TBONWriter.java:378-396 | one property is its name and value, then the rest unless it threw |
| TbonWriting.TbonWriter.constructor | src/main/java/kr/inode/tbon/mapper/TBONWriter.java:263-268 | an empty guard, nothing closed, nothing written |
| TbonWriting.TbonWriter.GuardContains | src/main/java/kr/inode/tbon/mapper/TBONWriter.java:275 | `guard.contains` is true exactly when an equal object is on the guard |
| TbonWriting.TbonWriter.FindMultiWriter | src/main/java/kr/inode/tbon/mapper/TBONWriter.java:296-304 | the loop finds `MultiWriter` |
| TbonWriting.TbonWriter.FindInterface | src/main/java/kr/inode/tbon/mapper/TBONWriter.java:313-319 | the loop finds `FirstIface` |
| TbonWriting.TbonWriter.HandleAutoCloseable | src/main/java/kr/inode/tbon/mapper/TBONWriter.java:404-412 | does what `AutoClose` says |
| TbonWriting.TbonWriter.WritePrim | src/main/java/kr/inode/tbon/mapper/TBONWriter.java:98-180 | one element of a primitive array appends its bytes |
| TbonWriting.TbonWriter.WriteBuiltin | src/main/java/kr/inode/tbon/mapper/TBONWriter.java:38-186 | a built-in class appends its `BuiltinBytes` |
| TbonWriting.TbonWriter.WritePayload | src/main/java/kr/inode/tbon/mapper/TBONWriter.java:86-97 | `BigInteger`, `BigDecimal`, `byte[]` and `String` append their bytes |
| TbonWriting.TbonWriter.WriteBoxed | src/main/java/kr/inode/tbon/mapper/TBONWriter.java:38-85 | boxed primitives append their bytes |
| TbonWriting.TbonWriter.WritePrimitiveArray | src/main/java/kr/inode/tbon/mapper/TBONWriter.java:98-180 | the kind's tag, each element, then the end of the array |
| TbonWriting.TbonWriter.Close | src/main/java/kr/inode/tbon/mapper/TBONWriter.java:415-417 | the generator sends everything written |
| TbonWriting.TbonWriter.WriteObject | src/main/java/kr/inode/tbon/mapper/TBONWriter.java:274-402 | writes, closes and throws as `Write` says, and leaves the guard as it was |
| TbonWriting.TbonWriter.WritePushed | src/main/java/kr/inode/tbon/mapper/TBONWriter.java:280-402 | push, dispatch and pop in `finally`: as `Dispatch` says, with the guard restored |
| TbonWriting.TbonWriter.DispatchObject | src/main/java/kr/inode/tbon/mapper/TBONWriter.java:283-398 | the writer search does what `Dispatch` says |
| TbonWriting.TbonWriter.WriteInterface | src/main/java/kr/inode/tbon/mapper/TBONWriter.java:188-250 | does what `IfaceWrite` says |
| TbonWriting.TbonWriter.WriteMap | src/main/java/kr/inode/tbon/mapper/TBONWriter.java:188-199 | does what `MapWrite` says |
| TbonWriting.TbonWriter.WriteList | src/main/java/kr/inode/tbon/mapper/TBONWriter.java:200-210 | does what `ListWrite` says |
| TbonWriting.TbonWriter.WriteIterable | src/main/java/kr/inode/tbon/mapper/TBONWriter.java:223-232 | does what `IterableWrite` says |
| TbonWriting.TbonWriter.WritePojo | src/main/java/kr/inode/tbon/mapper/TBONWriter.java:332-398 | does what `PojoWrite` says |
| TbonWriting.TbonWriter.WriteElements | src/main/java/kr/inode/tbon/mapper/TBONWriter.java:205-207 | the loop does what `Elems` says |
| TbonWriting.TbonWriter.WriteNamed | src/main/java/kr/inode/tbon/mapper/TBONWriter.java:193-196 | a name string, then `Write` of the value |
| TbonWriting.TbonWriter.WriteEntries | src/main/java/kr/inode/tbon/mapper/TBONWriter.java:193-196 | the loop does what `Entries` says |
| TbonWriting.TbonWriter.WriteProperties | src/main/java/kr/inode/tbon/mapper/TBONWriter.java:378-396 | the loop does what `Props` says |
| TbonWritingFacts.NullOrEqualWritesNull | src/main/java/kr/inode/tbon/mapper/TBONWriter.java:274-278 | a null reference, or an object equal to one on the guard, is written as exactly one `null`, and nothing is closed |
| TbonWritingFacts.SelfContainingCollection | src/main/java/kr/inode/tbon/mapper/TBONWriter.java:274-283 | a collection whose only element is itself is written as a one-element array holding `null` |
| TbonWritingFacts.WriteFresh | src/main/java/kr/inode/tbon/mapper/TBONWriter.java:280-283 | an object not on the guard is pushed and dispatched |
| TbonWritingFacts.DispatchOfIface | src/main/java/kr/inode/tbon/mapper/TBONWriter.java:313-319 | with no registered or built-in writer, the first interface writes and then the object is closed |
| TbonWritingFacts.ElemsOfOne | src/main/java/kr/inode/tbon/mapper/TBONWriter.java:205-207 | a single element is written as `writeObject` writes it |
| TbonWritingFacts.CollectionBeforeIterable | src/main/java/kr/inode/tbon/mapper/TBONWriter.java:188-232 | a `Collection` that is not a `Map` takes the sized form, never the `Iterable` one |
| TbonWritingFacts.RegisteredWriterFirst | src/main/java/kr/inode/tbon/mapper/TBONWriter.java:284-304 | with a registered writer for its class, what else the object is changes nothing in how it is written |
| TbonWritingFacts.BuiltinNeverCloses | src/main/java/kr/inode/tbon/mapper/TBONWriter.java:306-311 | a built-in writer writes its bytes and closes nothing |
| TbonWritingFacts.ArrayOrPojoDoesNotClose | src/main/java/kr/inode/tbon/mapper/TBONWriter.java:321-398 | the array and plain-object branches never close the object |
| TbonWritingFacts.InterfaceThenClose | src/main/java/kr/inode/tbon/mapper/TBONWriter.java:313-319 | after an interface writer that ends normally, an `AutoCloseable` is closed last, and a failing `close` becomes an `IOException` |
| TbonWritingFacts.WriteNone | src/main/java/kr/inode/tbon/mapper/TBONWriter.java:275-277 | `writeObject(null)` writes `null` and nothing else |
| TbonWritingFacts.NullValuedEntries | src/main/java/kr/inode/tbon/mapper/TBONWriter.java:193-196 | a map of null values is written key, `null`, … in iteration order; a null key throws after the entries before it |
| TbonWritingFacts.NullValuedProps | src/main/java/kr/inode/tbon/mapper/TBONWriter.java:378-396 | properties with null values are written name, `null`, … |
| TbonWritingFacts.PojoOfNullProperties | src/main/java/kr/inode/tbon/mapper/TBONWriter.java:375-398 | a plain object is its class name as a custom type, then an object of its properties |
| TbonWritingFacts.ObjectClassThrows | src/main/java/kr/inode/tbon/mapper/TBONWriter.java:344-373 | for `java.lang.Object` itself the getter search walks past the top of the hierarchy and throws before anything is written |
| TypeHandlers.PutNamesLookup | src/main/java/kr/inode/tbon/mapper/TypeHandlerRegistryImpl.java:35-37 | each declared name maps to its reader; other names keep what they had |
| TypeHandlers.NameMapLast | src/main/java/kr/inode/tbon/mapper/TypeHandlerRegistryImpl.java:31-40 | a name maps to the last registered explicit reader that declares it |
| TypeHandlers.NameMapUndeclared | src/main/java/kr/inode/tbon/mapper/TypeHandlerRegistryImpl.java:31-40 | a name that no reader declares keeps what the map had |
| TypeHandlers.NameMapAppend | src/main/java/kr/inode/tbon/mapper/TypeHandlerRegistryImpl.java:31-40 | two registrations put the same names as one registration of both |
| TypeHandlers.Explicit | src/main/java/kr/inode/tbon/mapper/TypeHandlerRegistryImpl.java:69-74 | only explicit writers, each with its own class |
| TypeHandlers.Classes | src/main/java/kr/inode/tbon/mapper/TypeHandlerRegistryImpl.java:93-95 | one class per entry |
| TypeHandlers.Insert | src/main/java/kr/inode/tbon/mapper/TypeHandlerRegistryImpl.java:75-89 | inserting adds exactly one entry |
| TypeHandlers.InsertionPoint | src/main/java/kr/inode/tbon/mapper/TypeHandlerRegistryImpl.java:78-86 | the first entry whose class is assignable from the new one, with none before it |
| TypeHandlers.InsertAt | src/main/java/kr/inode/tbon/mapper/TypeHandlerRegistryImpl.java:75-89 | the writer goes right before that entry, or last |
| TypeHandlers.InsertMultiset | src/main/java/kr/inode/tbon/mapper/TypeHandlerRegistryImpl.java:75-89 | inserting adds the writer and loses nothing |
| TypeHandlers.OrderedIsPermutation | src/main/java/kr/inode/tbon/mapper/TypeHandlerRegistryImpl.java:67-90 | the ordered list is a permutation of the explicit writers |
| TypeHandlers.InsertSubtypesFirst | src/main/java/kr/inode/tbon/mapper/TypeHandlerRegistryImpl.java:75-89 | inserting keeps subtypes before their supertypes |
| TypeHandlers.InsertKeepsOrder | src/main/java/kr/inode/tbon/mapper/TypeHandlerRegistryImpl.java:78-89 | a class placed before the first class assignable from it keeps subtypes first |
| TypeHandlers.OrderedSubtypesFirst | src/main/java/kr/inode/tbon/mapper/TypeHandlerRegistryImpl.java:67-90 | for any registration order, no class comes after a class it is assignable to |
| TypeHandlers.MapOfKeys | src/main/java/kr/inode/tbon/mapper/TypeHandlerRegistryImpl.java:92-95 | every key of the map is the class of an entry |
| TypeHandlers.MapOfSubtypesFirst | src/main/java/kr/inode/tbon/mapper/TypeHandlerRegistryImpl.java:92-95 | filling the map keeps the list's order property |
| TypeHandlers.AppendKeepsOrder | src/main/java/kr/inode/tbon/mapper/TypeHandlerRegistryImpl.java:92-95 | a new key can go last when every earlier key assignable from it is a supertype it shares |
| TypeHandlers.MapSubtypesFirst | src/main/java/kr/inode/tbon/mapper/TypeHandlerRegistryImpl.java:64-100 | the map iterates subtypes before their supertypes |
| TypeHandlers.NoExplicitEmptyMap | src/main/java/kr/inode/tbon/mapper/TypeHandlerRegistryImpl.java:69-72 | with no explicit writers, the map is empty |
| TypeHandlers.InsertOnly | src/main/java/kr/inode/tbon/mapper/TypeHandlerRegistryImpl.java:78-86 | a writer is inserted before every earlier writer of its own class, and the other classes keep their order |
| TypeHandlers.InsertParts | src/main/java/kr/inode/tbon/mapper/TypeHandlerRegistryImpl.java:78-89 | a class's writers are those before the insertion point, the new one, then those after it |
| TypeHandlers.FrontHasNone | src/main/java/kr/inode/tbon/mapper/TypeHandlerRegistryImpl.java:78-86 | no writer of the new writer's own class comes before its insertion point |
| TypeHandlers.OrderedOnly | src/main/java/kr/inode/tbon/mapper/TypeHandlerRegistryImpl.java:67-90 | the writers of one class appear in the ordered list latest first |
| TypeHandlers.MapOfValue | src/main/java/kr/inode/tbon/mapper/TypeHandlerRegistryImpl.java:92-95 | the map's value for a class is the last entry of that class in the list |
| TypeHandlers.FirstRegisteredWins | src/main/java/kr/inode/tbon/mapper/TypeHandlerRegistryImpl.java:64-100 | when several explicit writers share a class, the map gives the one registered first |
| TypeHandlers.StringBeforeCharSequence | src/test/java/kr/inode/tbon/mapper/TypeHandlerRegistryTest.java:56-68 | registering a `CharSequence` writer and then a `String` writer puts `String` first |
| TypeHandlers.TypeHandlerRegistry.constructor | src/main/java/kr/inode/tbon/mapper/TypeHandlerRegistryImpl.java:16-20 | empty lists, an empty name map, an empty writer map, and the flag clear |
| TypeHandlers.TypeHandlerRegistry.RegisterReaders | src/main/java/kr/inode/tbon/mapper/TypeHandlerRegistryImpl.java:31-40 | appends the readers and puts every name of each explicit one; nothing else changes |
| TypeHandlers.TypeHandlerRegistry.RegisterWriters | src/main/java/kr/inode/tbon/mapper/TypeHandlerRegistryImpl.java:43-46 | appends the writers and sets the flag; nothing else changes |
| TypeHandlers.TypeHandlerRegistry.RegisterHandlers | src/main/java/kr/inode/tbon/mapper/TypeHandlerRegistryImpl.java:23-28 | registers each handler both as a reader and as a writer |
| TypeHandlers.TypeHandlerRegistry.ExplicitTypeWriterMap | src/main/java/kr/inode/tbon/mapper/TypeHandlerRegistryImpl.java:64-100 | returns the map built from the registered writers, and stores it |

## Left out

- The channels, files and streams are not modelled.
  - The generator's channel is the sequence of bytes it has accepted, taking at most a fixed chunk per call.
  - The parser's channel is the sequence of bytes it has not delivered yet.
  - The reader's temporary spool file is the value `VSpooled` holding its bytes, and `readOctet(OutputStream)` is that value.
- Floating point is not modelled. `float` and `double` are their IEEE 754 bits, and
  `Float.floatToIntBits`/`equals` are taken as given.
- Text encoding is not modelled. Strings, keys and class names are their UTF-8 bytes.
- Calendars and dates are not modelled. `write(Calendar)` and `write(Date)` take the calendar fields as given; the time-zone conversion is not modelled.
- `BigInteger` arithmetic is `int`, and `toByteArray` is the minimal two's complement.
- `SteakGenerator.write(InputStream)` and `write(ReadableByteChannel)` are not modelled: the
  bytes they write for an object are given as the object's `streamed` bytes.
- Java reflection is not modelled.
  - Writing a plain object takes its property map as given, in iteration order. Because the
    getter search calls `getDeclaredMethods` on the object's own class on every turn, getters
    of superclasses are never found.
  - Reading a plain object gives the class name and the map that follows.
  - `convertOctet` and the setter and field assignments are not modelled.
- The bodies of user `TypeReader`/`TypeWriter` implementations are outside the core. A
  registered writer's output is the given `userOutput` bytes, and a registered reader's value
  is `VHandled`, which consumes no token.
- TbonWriting.FirstWritable, TbonWriting.MultiWriter: a multi-type writer's `canWrite(obj)` is
  decided by the object's class, through the writer's `writable` set of classes. A `canWrite`
  that looks at the object's contents is not modelled.
- TbonWritingFacts.RegisteredWriterFirst: on the multi-type writer path, it says an object of
  the same class is written the same way. That holds only because `canWrite` is decided by class.
- Running out of memory is not modelled. `new ArrayList<>(len)` and `new T[len]` allocate up
  front, and a huge count fails with `OutOfMemoryError` in Java, but reads on in the model.
- `equals` is not modelled: each object carries an `eqClass` label, and two objects are equal when their labels are.
- `TBONParser.next()` of another format is not modelled: the reader takes the parser as a list of tokens.
- `TBONReader.close()` only closes the parser and is not modelled.
- `SteakParser.close()` does nothing and is not modelled.
- The parser getters other than `getBoolean` are not modelled as methods: they are the parser's fields.
- `TypeHandlerRegistryImpl.typeReaders()`, `typeWriters()` and `explicitTypeReaderMap()` return fields and are not modelled as methods.
- SteakParsing.SteakParser.ReadToBuffer: a `readToBuffer(size)` with size above 8192 loops
  forever in Java, once the buffer is full and `read` returns 0. The model fails it instead.
- SteakWire.ReadVInt: Java masks the shift distance of `readVInt` to five bits. From the sixth
  byte on, a group lands at a wrapped position and is OR-ed in. The model adds every group at its
  full weight and narrows the sum with `Wrap32`. The two agree on varints of up to five bytes,
  which is every varint the generator writes. They differ on longer ones: `[0x80,0x80,0x80,0x80,0x80,0x01]`.
- SteakWire.ReadVLong: the same for `readVLong`, with the shift masked to six bits. The two agree
  up to ten bytes, and the model narrows with `Wrap64`.
- SteakWire.ReadVSInt: the same for `readVSInt`, whose groups start at shift 6. The two agree on
  up to five bytes. Java reads `[0x80,0x80,0x80,0x80,0x80,0x01]` as 4, and the model reads it as 0.
- SteakParsing.SteakParser.ReadVInt, SteakParsing.SteakParser.ReadVLong, SteakParsing.SteakParser.ReadVSInt:
  these agree with the functions above, so they leave out the masked shift in the same way.
- SteakWire.ReadVSIntOfVSInt: `Integer.MIN_VALUE` is excluded; what it reads back is not stated.
- SteakRoundTrip.NextOfOctet, NextOfString, NextOfBigInteger: stated only for payloads up to
  the parser's 8192-byte buffer. A longer payload fails with `BufferUnderflowException`, as
  `SteakDecoding.TakeOctet` states.
- SteakRoundTrip.NextOfDecimal, NextOfScaledDecimal: stated only for unscaled bytes up to the
  8192-byte buffer, and for every scale but `Integer.MIN_VALUE`. That scale does not read back,
  as `SteakRoundTrip.MinScaleMisread` shows.
- SteakRoundTrip.NextOfDateTime: stated for the non-negative day, second and millisecond fields a calendar has, and for every year but `Integer.MIN_VALUE`.
- TypeHandlers.TypeHandlerRegistry.ExplicitTypeWriterMap: Java never clears
  `updateExplicitWriterMap`, so every call rebuilds the map. The model rebuilds it each time
  too, but states the result only as the function of the registered writers.
- Collection sizes, array lengths and string lengths are below 2^31 because a Java `int` holds
  them. The model assumes this through `WellFormed` and the `< Two31` preconditions.
- After an exception, the parser's state is whatever the failed step left. The model keeps
  the old fields and does not say how far the input was consumed.
