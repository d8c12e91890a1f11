/**
 * The bytes each write of the Steak generator appends to the stream, one function per
 * `write…` overload of `SteakGenerator`, as values. The generator class in
 * `SteakGeneration` is proved to append exactly these bytes; `SteakRoundTrip` proves what
 * the parser reads back from them.
 */
module SteakEncoding {
  import opened JavaTypes
  import opened TbonToken
  import opened SteakWire

  /** The largest magnitude `write(int)` / `write(long)` still writes as a varint. */
  const IntVMax: int := 0x1f_ffff
  const LongVMax: int := 0x1_ffff_ffff_ffff

  function EncodeNull(): seq<byte>
  {
    [0x1e]
  }

  function EncodeBoolean(v: bool): seq<byte>
  {
    [if v then 0x1d else 0x1c]
  }

  /** `write(byte)`: zero is the lone tag 0x00, anything else 0x08 and the byte. */
  function EncodeByte(v: int8): seq<byte>
  {
    if v == 0 then [0x00] else [0x08, v % 0x100]
  }

  /** `write(short)`: zero, then a value in byte range as 0x13 and its low byte, else 0x09. */
  function EncodeShort(v: int16): seq<byte>
  {
    if v == 0 then [0x01]
    else if -0x80 <= v <= 0x7f then [0x13, v % 0x100]
    else [0x09] + BE(v, 2)
  }

  /**
   * `write(int)`: zero, then a magnitude up to 0x1fffff as 0x10 (positive) or 0x11
   * (negative) and the varint of the magnitude, else 0x0a and four big-endian bytes.
   */
  function EncodeInt(v: int32): seq<byte>
  {
    if v == 0 then [0x02]
    else if -IntVMax <= v <= IntVMax then
      if v > 0 then [0x10] + VPInt(v) else [0x11] + VPInt(-v)
    else [0x0a] + BE(v, 4)
  }

  /** `write(long)`: the same scheme with tags 0x03, 0x14, 0x15 and 0x0b. */
  function EncodeLong(v: int64): seq<byte>
  {
    if v == 0 then [0x03]
    else if -LongVMax <= v <= LongVMax then
      if v > 0 then [0x14] + VPLong(v) else [0x15] + VPLong(-v)
    else [0x0b] + BE(v, 8)
  }

  /** Floating-point values are their raw IEEE 754 bits; `value == 0` holds for ±0. */
  predicate IsZeroFloat(bits: nat)
  {
    bits == 0 || bits == 0x8000_0000
  }

  predicate IsZeroDouble(bits: nat)
  {
    bits == 0 || bits == 0x8000_0000_0000_0000
  }

  function EncodeFloat(bits: nat): seq<byte>
    requires bits < Two32
  {
    if IsZeroFloat(bits) then [0x18] else [0x19] + BE(bits, 4)
  }

  function EncodeDouble(bits: nat): seq<byte>
    requires bits < Two64
  {
    if IsZeroDouble(bits) then [0x1a] else [0x1b] + BE(bits, 8)
  }

  /** `write(char)`: a code unit up to 0xff as 0x24 and one byte, else 0x25 and two. */
  function EncodeChar(c: char16): seq<byte>
  {
    if c <= 0xff then [0x24, c] else [0x25] + BE(c, 2)
  }

  /** Unicode code points: 0 through 0x10ffff (`Character.isValidCodePoint`). */
  predicate IsCodePoint(cp: int)
  {
    0 <= cp <= 0x10_ffff
  }

  /**
   * `writeChar(int)`: an invalid code point throws; one of the basic multilingual plane
   * is written as the `char` it is, a supplementary one as 0x26 and its varint.
   */
  function EncodeCodePoint(cp: int32): Result<seq<byte>>
  {
    if !IsCodePoint(cp) then Err(InvalidCodePoint)
    else if cp < 0x1_0000 then Ok(EncodeChar(cp))
    else Ok([0x26] + VPInt(cp))
  }

  /**
   * `write(BigInteger)`: zero is the lone tag 0x40; otherwise the `toByteArray` bytes,
   * their count in the tag when below 15, else after the tag 0x4f as a varint.
   */
  function EncodeBigInteger(v: int): seq<byte>
  {
    if v == 0 then [0x40]
    else
      var b := ToTwos(v);
      (if |b| < 15 then [0x40 + |b|] else [0x4f] + VarUInt(|b|)) + b
  }

  /**
   * The scale part of `write(BigDecimal)`: scales 0..6 in the tag 0x30+scale, larger ones
   * after 0x37; negative scales as 0x38+|scale| when |scale| < 8, else after 0x38. Java's
   * `-scale` wraps, so `Integer.MIN_VALUE` stays negative and lands in the first negative
   * branch, whose byte cast gives 0x38 with no varint after it.
   */
  function ScaleTag(scale: int32): seq<byte>
  {
    if scale >= 0 then
      if scale < 7 then [0x30 + scale] else [0x37] + VPInt(scale)
    else
      var m := Wrap32(-(scale as int));
      if m < 8 then [(0x38 + m) % 0x100] else [0x38] + VPInt(m)
  }

  /**
   * `write(BigDecimal)` of `unscaled × 10^-scale`. `BigDecimal.ZERO.equals` also compares
   * the scale, so only a zero with scale 0 is the lone tag 0x27; every other value is the
   * scale, the varint count of the unscaled bytes and the bytes.
   */
  function EncodeDecimal(unscaled: int, scale: int32): seq<byte>
  {
    if unscaled == 0 && scale == 0 then [0x27]
    else
      var b := ToTwos(unscaled);
      ScaleTag(scale) + VarUInt(|b|) + b
  }

  /** `write(ByteBuffer)` / `write(byte[])`: 0x80+len below 63 bytes, else 0xbf and a varint. */
  function EncodeOctet(b: seq<byte>): seq<byte>
  {
    (if |b| < 63 then [0x80 + |b|] else [0xbf] + VarUInt(|b|)) + b
  }

  /** `write(String)` of the string's UTF-8 bytes: 0xc0+len below 63 bytes, else 0xff. */
  function EncodeString(utf8: seq<byte>): seq<byte>
  {
    (if |utf8| < 63 then [0xc0 + |utf8|] else [0xff] + VarUInt(|utf8|)) + utf8
  }

  /**
   * `write(Calendar)` of the calendar's year, day of year, second of day and millisecond:
   * 0x22, the signed year, the two day fields and the nanoseconds `millisecond * 1000000`.
   */
  function EncodeDateTime(year: int32, dayOfYear: int32, secondOfDay: int32, millisecond: int32): seq<byte>
  {
    [0x22] + VSInt(year) + VPInt(dayOfYear) + VPInt(secondOfDay)
      + VPLong(Wrap64(millisecond * 1_000_000))
  }

  function EncodeStartArray(): seq<byte>
  {
    [0x6f, 0x00]
  }

  /** `writeStartArray(count)`: below 15 in the tag (the byte cast wraps a negative count). */
  function EncodeStartArrayCount(count: int32): seq<byte>
  {
    if count < 15 then [(0x60 + count) % 0x100] else [0x6f] + VPInt(count)
  }

  function EncodeEndArray(): seq<byte>
  {
    [0x1f]
  }

  function EncodeStartObject(): seq<byte>
  {
    [0x7f, 0x00]
  }

  /** `writeStartObject(count)`: the same scheme as arrays with 0x70 and 0x7f. */
  function EncodeStartObjectCount(count: int32): seq<byte>
  {
    if count < 15 then [(0x70 + count) % 0x100] else [0x7f] + VPInt(count)
  }

  function EncodeEndObject(): seq<byte>
  {
    [0x1f]
  }

  /** The `Class` argument of `writeStartPrimitiveArray`. */
  datatype ElementType = Primitive(kind: PrimKind) | ByteType | VoidType | ReferenceType

  function PrimitiveArrayTag(k: PrimKind): byte
  {
    match k
    case BooleanKind => 0x28
    case ShortKind => 0x29
    case IntKind => 0x2a
    case LongKind => 0x2b
    case FloatKind => 0x2c
    case DoubleKind => 0x2d
    case CharKind => 0x2e
  }

  /**
   * `writeStartPrimitiveArray(type, count)`: a reference type and `byte` throw, `void`
   * (primitive, but none of the listed kinds) writes nothing, every other kind its tag.
   * The count is not written.
   */
  function EncodeStartPrimitiveArray(t: ElementType, count: int32): Result<seq<byte>>
  {
    match t
    case ReferenceType => Err(NotPrimitive)
    case ByteType => Err(ByteArrayAsPrimitive)
    case VoidType => Ok([])
    case Primitive(k) => Ok([PrimitiveArrayTag(k)])
  }

  /**
   * `writeCustomType(name)` of the name's UTF-8 bytes: an empty name throws; a name below
   * 16 bytes has its length minus one in the tag 0x50, a longer one follows 0x5f and the
   * varint of its length minus one.
   */
  function EncodeCustomType(name: seq<byte>): Result<seq<byte>>
  {
    if |name| == 0 then Err(EmptyTypeName)
    else Ok((if |name| < 16 then [0x50 + |name| - 1] else [0x5f] + VarUInt(|name| - 1)) + name)
  }

  // ---------------------------------------------------------------- fitting the buffer

  /**
   * The `ensureBuffer` sizes suffice: every write's bytes, without the payload of the
   * octet-like writes, fit in the room the write reserves.
   */
  lemma EncodeIntFits(v: int32)
    ensures |EncodeInt(v)| <= 5
    ensures -IntVMax <= v <= IntVMax ==> |EncodeInt(v)| <= 4
  {
    if v != 0 && -IntVMax <= v <= IntVMax {
      VarUIntLength(if v > 0 then v else -v, 3);
    }
  }

  lemma EncodeLongFits(v: int64)
    ensures |EncodeLong(v)| <= 9
    ensures -LongVMax <= v <= LongVMax ==> |EncodeLong(v)| <= 8
  {
    if v != 0 && -LongVMax <= v <= LongVMax {
      VarUIntLength(if v > 0 then v else -v, 7);
    }
  }

  lemma EncodeCodePointFits(cp: int32)
    ensures EncodeCodePoint(cp).Ok? ==> |EncodeCodePoint(cp).value| <= 6
  {
    if IsCodePoint(cp) && cp >= 0x1_0000 {
      VarUIntLength(cp, 3);
    }
  }

  lemma VSIntLength(i: int32)
    ensures |VSInt(i)| <= 6
  {
    var m := if i < 0 then Wrap32(-(i as int)) else i;
    if m > 0x3f {
      VarUIntLength(m / 0x40, 4);
    }
  }

  lemma EncodeDateTimeFits(year: int32, dayOfYear: int32, secondOfDay: int32, millisecond: int32)
    ensures |EncodeDateTime(year, dayOfYear, secondOfDay, millisecond)| <= 26
  {
    VSIntLength(year);
    VPIntLength(dayOfYear);
    VPIntLength(secondOfDay);
    VPLongLength(Wrap64(millisecond * 1_000_000));
  }

  lemma ScaleTagFits(scale: int32)
    ensures 1 <= |ScaleTag(scale)| <= 6
  {
    if scale >= 7 {
      VPIntLength(scale);
    } else if scale < 0 {
      VPIntLength(Wrap32(-(scale as int)));
    }
  }

  /** A Java array has fewer than 2^31 elements, so its varint length takes at most five bytes. */
  lemma LengthFits(n: nat)
    requires n < Two31
    ensures |VarUInt(n)| <= 5
  {
    VarUIntLength(n, 5);
  }

  /** The header part of an octet-like write: its whole encoding minus the payload. */
  lemma EncodeOctetFits(b: seq<byte>)
    requires |b| < Two31
    ensures |b| < 63 ==> |EncodeOctet(b)| == 1 + |b|
    ensures |EncodeOctet(b)| <= 6 + |b|
  {
    if |b| >= 63 {
      LengthFits(|b|);
    }
  }

  lemma EncodeStringFits(b: seq<byte>)
    requires |b| < Two31
    ensures |b| < 63 ==> |EncodeString(b)| == 1 + |b|
    ensures |EncodeString(b)| <= 6 + |b|
  {
    if |b| >= 63 {
      LengthFits(|b|);
    }
  }

  lemma EncodeBigIntegerFits(v: int)
    requires |ToTwos(v)| < Two31
    ensures v != 0 && |ToTwos(v)| < 15 ==> |EncodeBigInteger(v)| == 1 + |ToTwos(v)|
    ensures |EncodeBigInteger(v)| <= 6 + |ToTwos(v)|
  {
    if v != 0 && |ToTwos(v)| >= 15 {
      LengthFits(|ToTwos(v)|);
    }
  }

  lemma EncodeDecimalFits(unscaled: int, scale: int32)
    requires |ToTwos(unscaled)| < Two31
    ensures |EncodeDecimal(unscaled, scale)| <= 11 + |ToTwos(unscaled)|
  {
    ScaleTagFits(scale);
    LengthFits(|ToTwos(unscaled)|);
  }

  lemma EncodeCustomTypeFits(name: seq<byte>)
    requires |name| < Two31
    ensures EncodeCustomType(name).Ok? ==> |EncodeCustomType(name).value| <= 6 + |name|
    ensures 0 < |name| < 16 ==> |EncodeCustomType(name).value| == 1 + |name|
  {
    if |name| >= 16 {
      LengthFits(|name| - 1);
    }
  }

  lemma EncodeCountFits(count: int32)
    ensures |EncodeStartArrayCount(count)| <= 6 && |EncodeStartObjectCount(count)| <= 6
  {
    VPIntLength(count);
  }
}
