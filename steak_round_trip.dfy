/**
 * What the parser reads back from what the generator writes: for each write, one `next()`
 * on its bytes followed by anything else yields the written value and leaves exactly the
 * following bytes unread. Where the two sides of the format disagree, the lemma says what
 * the parser reads instead.
 */
module SteakRoundTrip {
  import opened JavaTypes
  import opened TbonToken
  import opened SteakWire
  import opened SteakEncoding
  import opened SteakDecoding

  /** `next()` read a token with the given remainder. */
  predicate ReadsTo(r: Result<(Fields, seq<byte>)>, token: Token, rest: seq<byte>)
  {
    r.Ok? && r.value.0.token == token && r.value.1 == rest
  }

  /** `next()` on a tag byte `b` followed by `t` is the family of `b` applied to `t`. */
  lemma NextOfTag(f: Fields, b: byte, t: seq<byte>)
    ensures Next(f, [b] + t)
         == if b < 0x40 then CompactFamily(b, f, t)
            else if b < 0x80 then VariableLength(b, f, t)
            else OctetOrString(b, f, t)
  {
    assert ([b] + t)[0] == b && ([b] + t)[1..] == t;
  }

  /** Tags 0x08–0x0b: a signed big-endian integer of 1, 2, 4 or 8 bytes. */
  lemma CompactOfSigned(b: byte, f: Fields, t: seq<byte>)
    requires 0x08 <= b < 0x0c
    ensures CompactFamily(b, f, t) == Signed(b - 8, f.(token := IntegerToken(b - 8)), t)
  {
  }

  /** Tags 0x18–0x1f: the floating-point values and the singletons. */
  lemma CompactOfSingleton(b: byte, f: Fields, t: seq<byte>)
    requires 0x18 <= b < 0x20
    ensures CompactFamily(b, f, t) == SingletonFamily(b, f, t)
  {
  }

  /** The bytes after the tag of a fixed-width number: exactly its width is read. */
  lemma SignedBody(g: Fields, e: seq<byte>, rest: seq<byte>)
    ensures |e| == 2 ==> Signed(1, g, e + rest) == Ok((g.(shortValue := GetShort(e)), rest))
    ensures |e| == 4 ==> Signed(2, g, e + rest) == Ok((g.(intValue := GetInt(e)), rest))
    ensures |e| == 8 ==> Signed(3, g, e + rest) == Ok((g.(longValue := GetLong(e)), rest))
  {
    if |e| <= Capacity {
      TakeFront(e, rest);
    }
  }

  lemma FloatingBody(f: Fields, e: seq<byte>, rest: seq<byte>)
    ensures |e| == 4 ==> SingletonFamily(0x19, f, e + rest) == Ok((f.(token := Float32, floatBits := FromBE(e)), rest))
    ensures |e| == 8 ==> SingletonFamily(0x1b, f, e + rest) == Ok((f.(token := Float64, doubleBits := FromBE(e)), rest))
  {
    if |e| <= Capacity {
      TakeFront(e, rest);
    }
  }

  lemma NextOfNull(f: Fields, rest: seq<byte>)
    ensures Next(f, EncodeNull() + rest) == Ok((f.(token := Null), rest))
  {
    NextOfTag(f, 0x1e, rest);
  }

  lemma NextOfBoolean(f: Fields, v: bool, rest: seq<byte>)
    ensures Next(f, EncodeBoolean(v) + rest) == Ok((f.(token := if v then True else False), rest))
  {
    NextOfTag(f, if v then 0x1d else 0x1c, rest);
  }

  lemma NextOfEnd(f: Fields, rest: seq<byte>)
    ensures Next(f, EncodeEndArray() + rest) == Ok((f.(token := EndOfStructure), rest))
    ensures Next(f, EncodeEndObject() + rest) == Ok((f.(token := EndOfStructure), rest))
  {
    NextOfTag(f, 0x1f, rest);
  }

  /** A byte comes back as an `Int8` token carrying it. */
  lemma NextOfByte(f: Fields, v: int8, rest: seq<byte>)
    ensures var r := Next(f, EncodeByte(v) + rest);
      ReadsTo(r, Int8, rest) && r.value.0.byteValue == v
  {
    if v == 0 {
      NextOfTag(f, 0x00, rest);
    } else {
      var t := [v % 0x100] + rest;
      assert EncodeByte(v) + rest == [0x08] + t;
      NextOfTag(f, 0x08, t);
      assert Take(t, 1) == Ok(([v % 0x100], rest));
    }
  }

  /** A short comes back as an `Int16` token carrying it, whichever of its three forms. */
  lemma NextOfShort(f: Fields, v: int16, rest: seq<byte>)
    ensures var r := Next(f, EncodeShort(v) + rest);
      ReadsTo(r, Int16, rest) && r.value.0.shortValue == v
  {
    if v == 0 {
      NextOfTag(f, 0x01, rest);
    } else if -0x80 <= v <= 0x7f {
      var t := [v % 0x100] + rest;
      assert EncodeShort(v) + rest == [0x13] + t;
      NextOfTag(f, 0x13, t);
      assert Take(t, 1) == Ok(([v % 0x100], rest));
    } else {
      var e := BE(v, 2);
      assert EncodeShort(v) + rest == [0x09] + (e + rest);
      NextOfTag(f, 0x09, e + rest);
      CompactOfSigned(0x09, f, e + rest);
      SignedBody(f.(token := Int16), e, rest);
      GetBEOfBE(v, 2);
    }
  }

  /** The fixed-width forms of `write(int)` and `write(long)`. */
  lemma NextOfFixedInt(f: Fields, v: int32, rest: seq<byte>)
    ensures var r := Next(f, [0x0a] + BE(v, 4) + rest);
      ReadsTo(r, Int32, rest) && r.value.0.intValue == v
  {
    var e := BE(v, 4);
    assert [0x0a] + e + rest == [0x0a] + (e + rest);
    NextOfTag(f, 0x0a, e + rest);
    CompactOfSigned(0x0a, f, e + rest);
    SignedBody(f.(token := Int32), e, rest);
    GetBEOfBE(v, 4);
  }

  lemma NextOfFixedLong(f: Fields, v: int64, rest: seq<byte>)
    ensures var r := Next(f, [0x0b] + BE(v, 8) + rest);
      ReadsTo(r, Int64, rest) && r.value.0.longValue == v
  {
    var e := BE(v, 8);
    assert [0x0b] + e + rest == [0x0b] + (e + rest);
    NextOfTag(f, 0x0b, e + rest);
    CompactOfSigned(0x0b, f, e + rest);
    SignedBody(f.(token := Int64), e, rest);
    GetBEOfBE(v, 8);
  }

  /** An int comes back as an `Int32` token carrying it. */
  lemma NextOfInt(f: Fields, v: int32, rest: seq<byte>)
    ensures var r := Next(f, EncodeInt(v) + rest);
      ReadsTo(r, Int32, rest) && r.value.0.intValue == v
  {
    if v == 0 {
      NextOfTag(f, 0x02, rest);
    } else if -IntVMax <= v <= IntVMax {
      var m: int32 := if v > 0 then v else -v;
      var tag: byte := if v > 0 then 0x10 else 0x11;
      assert EncodeInt(v) + rest == [tag] + (VPInt(m) + rest);
      NextOfTag(f, tag, VPInt(m) + rest);
      ReadVIntOfVPInt(m, rest);
    } else {
      NextOfFixedInt(f, v, rest);
    }
  }

  /** A long comes back as an `Int64` token carrying it. */
  lemma NextOfLong(f: Fields, v: int64, rest: seq<byte>)
    ensures var r := Next(f, EncodeLong(v) + rest);
      ReadsTo(r, Int64, rest) && r.value.0.longValue == v
  {
    if v == 0 {
      NextOfTag(f, 0x03, rest);
    } else if -LongVMax <= v <= LongVMax {
      var m: int64 := if v > 0 then v else -v;
      var tag: byte := if v > 0 then 0x14 else 0x15;
      assert EncodeLong(v) + rest == [tag] + (VPLong(m) + rest);
      NextOfTag(f, tag, VPLong(m) + rest);
      ReadVLongOfVPLong(m, rest);
    } else {
      NextOfFixedLong(f, v, rest);
    }
  }

  /** A float's bits come back, except that negative zero, written as the zero tag, reads +0. */
  lemma NextOfFloat(f: Fields, bits: nat, rest: seq<byte>)
    requires bits < Two32
    ensures var r := Next(f, EncodeFloat(bits) + rest);
      ReadsTo(r, Float32, rest) && r.value.0.floatBits == (if IsZeroFloat(bits) then 0 else bits)
  {
    if IsZeroFloat(bits) {
      NextOfTag(f, 0x18, rest);
    } else {
      var e := BE(bits, 4);
      assert EncodeFloat(bits) + rest == [0x19] + (e + rest);
      NextOfTag(f, 0x19, e + rest);
      CompactOfSingleton(0x19, f, e + rest);
      FloatingBody(f, e, rest);
      assert Pow256(4) == Two32;
      HighOfSmall(bits, 4);
    }
  }

  lemma NextOfDouble(f: Fields, bits: nat, rest: seq<byte>)
    requires bits < Two64
    ensures var r := Next(f, EncodeDouble(bits) + rest);
      ReadsTo(r, Float64, rest) && r.value.0.doubleBits == (if IsZeroDouble(bits) then 0 else bits)
  {
    if IsZeroDouble(bits) {
      NextOfTag(f, 0x1a, rest);
    } else {
      var e := BE(bits, 8);
      assert EncodeDouble(bits) + rest == [0x1b] + (e + rest);
      NextOfTag(f, 0x1b, e + rest);
      CompactOfSingleton(0x1b, f, e + rest);
      FloatingBody(f, e, rest);
      assert Pow256(8) == Two64;
      HighOfSmall(bits, 8);
    }
  }

  /** A `char` comes back in `charValue`. */
  lemma NextOfChar(f: Fields, c: char16, rest: seq<byte>)
    ensures var r := Next(f, EncodeChar(c) + rest);
      ReadsTo(r, Character, rest) && r.value.0.charValue == c
  {
    if c <= 0xff {
      var t := [c] + rest;
      assert EncodeChar(c) + rest == [0x24] + t;
      NextOfTag(f, 0x24, t);
      assert Take(t, 1) == Ok(([c], rest));
    } else {
      var e := BE(c, 2);
      assert EncodeChar(c) + rest == [0x25] + (e + rest);
      NextOfTag(f, 0x25, e + rest);
      assert Take(e + rest, 2) == Ok((e, rest));
      assert Pow256(2) == Two16;
      HighOfSmall(c, 2);
    }
  }

  /**
   * A supplementary code point comes back as a `Character` token, but in `intValue`: the
   * `charValue` the token's accessor returns keeps whatever it held before.
   */
  lemma NextOfSupplementaryCodePoint(f: Fields, cp: int32, rest: seq<byte>)
    requires IsCodePoint(cp) && cp >= 0x1_0000
    ensures var r := Next(f, EncodeCodePoint(cp).value + rest);
      ReadsTo(r, Character, rest) && r.value.0.intValue == cp && r.value.0.charValue == f.charValue
  {
    assert EncodeCodePoint(cp).value + rest == [0x26] + (VPInt(cp) + rest);
    NextOfTag(f, 0x26, VPInt(cp) + rest);
    ReadVIntOfVPInt(cp, rest);
  }

  /** The varint length of a payload, followed by the payload. */
  lemma ReadLengthOf(b: seq<byte>, rest: seq<byte>)
    requires |b| <= Capacity
    ensures ReadVInt(VarUInt(|b|) + (b + rest)) == Ok((|b|, b + rest))
    ensures Take(b + rest, |b|) == Ok((b, rest))
    ensures TakeOctet(b + rest, |b|) == Ok((b, rest))
  {
    VarNatOfVarUInt(|b|, b + rest);
    assert (b + rest)[..|b|] == b && (b + rest)[|b|..] == rest;
  }

  /** A tag below 0x40 is read by its compact family. */
  lemma NextOfCompact(f: Fields, b: byte, t: seq<byte>)
    requires b < 0x40
    ensures Next(f, [b] + t) == CompactFamily(b, f, t)
  {
    NextOfTag(f, b, t);
  }

  /** A tag in 0x40–0x7f is read by the variable-length family. */
  lemma NextOfVariable(f: Fields, b: byte, t: seq<byte>)
    requires 0x40 <= b < 0x80
    ensures Next(f, [b] + t) == VariableLength(b, f, t)
  {
    NextOfTag(f, b, t);
  }

  /** A tag of 0x80 or more is read by the octet/string family. */
  lemma NextOfPayloadTag(f: Fields, b: byte, t: seq<byte>)
    requires b >= 0x80
    ensures Next(f, [b] + t) == OctetOrString(b, f, t)
  {
    NextOfTag(f, b, t);
  }

  /** A varint length after a low nibble of 15. */
  lemma NibbleOfVarUInt(b: byte, n: nat, u: seq<byte>)
    requires b % 16 == 15 && 0 < n <= Capacity
    ensures NibbleLength(b, VarUInt(n) + u) == Ok((n, u))
  {
    VarNatOfVarUInt(n, u);
  }

  /** `n` bytes taken off the front of `b + rest`, where `n == |b|`. */
  lemma TakeFront(b: seq<byte>, rest: seq<byte>)
    requires |b| <= Capacity
    ensures Take(b + rest, |b|) == Ok((b, rest))
    ensures TakeOctet(b + rest, |b|) == Ok((b, rest))
  {
    assert (b + rest)[..|b|] == b && (b + rest)[|b|..] == rest;
  }

  lemma ShortBigIntegerOf(f: Fields, v: int, rest: seq<byte>)
    requires |ToTwos(v)| < 15
    ensures var b := ToTwos(v);
      VariableLength(0x40 + |b|, f, b + rest) == Ok((f.(token := Integer, objectValue := OBigInteger(v)), rest))
  {
    TwosValueOfToTwos(v);
    TakeFront(ToTwos(v), rest);
  }

  lemma LongBigIntegerOf(f: Fields, v: int, rest: seq<byte>)
    requires 15 <= |ToTwos(v)| <= Capacity
    ensures var b := ToTwos(v);
      VariableLength(0x4f, f, VarUInt(|b|) + (b + rest))
        == Ok((f.(token := Integer, objectValue := OBigInteger(v)), rest))
  {
    var b := ToTwos(v);
    TwosValueOfToTwos(v);
    NibbleOfVarUInt(0x4f, |b|, b + rest);
    TakeFront(b, rest);
  }

  lemma NextOfShortBigInteger(f: Fields, v: int, rest: seq<byte>)
    requires v != 0 && |ToTwos(v)| < 15
    ensures Next(f, EncodeBigInteger(v) + rest) == Ok((f.(token := Integer, objectValue := OBigInteger(v)), rest))
  {
    var b := ToTwos(v);
    var tag: byte := 0x40 + |b|;
    assert EncodeBigInteger(v) == [tag] + b;
    Assoc([tag], b, rest);
    NextOfVariable(f, tag, b + rest);
    ShortBigIntegerOf(f, v, rest);
  }

  lemma NextOfLongBigInteger(f: Fields, v: int, rest: seq<byte>)
    requires v != 0 && 15 <= |ToTwos(v)| <= Capacity
    ensures Next(f, EncodeBigInteger(v) + rest) == Ok((f.(token := Integer, objectValue := OBigInteger(v)), rest))
  {
    var b := ToTwos(v);
    var e := VarUInt(|b|);
    assert EncodeBigInteger(v) == [0x4f] + e + b;
    Assoc([0x4f] + e, b, rest);
    Assoc([0x4f], e, b + rest);
    NextOfVariable(f, 0x4f, e + (b + rest));
    LongBigIntegerOf(f, v, rest);
  }

  /** A BigInteger whose bytes fit the parser's buffer comes back as an `Integer`. */
  lemma NextOfBigInteger(f: Fields, v: int, rest: seq<byte>)
    requires |ToTwos(v)| <= Capacity
    ensures Next(f, EncodeBigInteger(v) + rest) == Ok((f.(token := Integer, objectValue := OBigInteger(v)), rest))
  {
    if v == 0 {
      NextOfTag(f, 0x40, rest);
    } else if |ToTwos(v)| < 15 {
      NextOfShortBigInteger(f, v, rest);
    } else {
      NextOfLongBigInteger(f, v, rest);
    }
  }

  /** The varint count and the bytes of an unscaled value read back by `DecimalBody`. */
  lemma DecimalBodyOfBytes(scale: int32, f: Fields, unscaled: int, rest: seq<byte>)
    requires |ToTwos(unscaled)| <= Capacity
    ensures var b := ToTwos(unscaled);
      DecimalBody(scale, f, VarUInt(|b|) + (b + rest))
        == Ok((f.(token := Decimal, objectValue := ODecimal(unscaled, scale)), rest))
  {
    var b := ToTwos(unscaled);
    TwosValueOfToTwos(unscaled);
    VarNatOfVarUInt(|b|, b + rest);
    TakeFront(b, rest);
  }

  /** Scales 0..6 ride in the tag. */
  lemma SmallScaleReadBack(scale: int32, f: Fields, body: seq<byte>)
    requires 0 <= scale < 7
    ensures Next(f, ScaleTag(scale) + body) == DecimalBody(scale, f, body)
  {
    var tag: byte := 0x30 + scale;
    assert ScaleTag(scale) == [tag];
    NextOfCompact(f, tag, body);
  }

  lemma LargeScaleReadBack(scale: int32, f: Fields, body: seq<byte>)
    requires scale >= 7
    ensures Next(f, ScaleTag(scale) + body) == DecimalBody(scale, f, body)
  {
    assert ScaleTag(scale) == [0x37] + VPInt(scale);
    Assoc([0x37], VPInt(scale), body);
    NextOfCompact(f, 0x37, VPInt(scale) + body);
    ReadVIntOfVPInt(scale, body);
  }

  /** Scales -7..-1 ride in the tag. */
  lemma SmallNegativeScaleReadBack(scale: int32, f: Fields, body: seq<byte>)
    requires -8 < scale < 0
    ensures Next(f, ScaleTag(scale) + body) == DecimalBody(scale, f, body)
  {
    var tag: byte := 0x38 - scale;
    assert Wrap32(-(scale as int)) == -scale;
    assert ScaleTag(scale) == [tag];
    NextOfCompact(f, tag, body);
  }

  lemma LargeNegativeScaleReadBack(scale: int32, f: Fields, body: seq<byte>)
    requires Int32Min < scale <= -8
    ensures Next(f, ScaleTag(scale) + body) == DecimalBody(scale, f, body)
  {
    var m: int32 := -scale;
    assert Wrap32(-(scale as int)) == m;
    assert ScaleTag(scale) == [0x38] + VPInt(m);
    Assoc([0x38], VPInt(m), body);
    NextOfCompact(f, 0x38, VPInt(m) + body);
    ReadVIntOfVPInt(m, body);
  }

  /** How the parser reads a scale tag back, for every scale but `Integer.MIN_VALUE`. */
  lemma ScaleTagReadBack(scale: int32, f: Fields, body: seq<byte>)
    requires scale != Int32Min
    ensures Next(f, ScaleTag(scale) + body) == DecimalBody(scale, f, body)
  {
    if scale >= 7 {
      LargeScaleReadBack(scale, f, body);
    } else if scale >= 0 {
      SmallScaleReadBack(scale, f, body);
    } else if scale > -8 {
      SmallNegativeScaleReadBack(scale, f, body);
    } else {
      LargeNegativeScaleReadBack(scale, f, body);
    }
  }

  lemma NextOfScaledDecimal(f: Fields, unscaled: int, scale: int32, rest: seq<byte>)
    requires |ToTwos(unscaled)| <= Capacity && scale != Int32Min && !(unscaled == 0 && scale == 0)
    ensures Next(f, EncodeDecimal(unscaled, scale) + rest)
         == Ok((f.(token := Decimal, objectValue := ODecimal(unscaled, scale)), rest))
  {
    var b := ToTwos(unscaled);
    var e := VarUInt(|b|);
    assert EncodeDecimal(unscaled, scale) == ScaleTag(scale) + e + b;
    Assoc(ScaleTag(scale) + e, b, rest);
    Assoc(ScaleTag(scale), e, b + rest);
    ScaleTagReadBack(scale, f, e + (b + rest));
    DecimalBodyOfBytes(scale, f, unscaled, rest);
  }

  /**
   * A BigDecimal comes back with its unscaled value and scale, when its bytes fit the
   * buffer and its scale is not `Integer.MIN_VALUE` (see `MinScaleMisread`).
   */
  lemma NextOfDecimal(f: Fields, unscaled: int, scale: int32, rest: seq<byte>)
    requires |ToTwos(unscaled)| <= Capacity && scale != Int32Min
    ensures Next(f, EncodeDecimal(unscaled, scale) + rest)
         == Ok((f.(token := Decimal, objectValue := ODecimal(unscaled, scale)), rest))
  {
    if unscaled == 0 && scale == 0 {
      NextOfTag(f, 0x27, rest);
    } else {
      NextOfScaledDecimal(f, unscaled, scale, rest);
    }
  }

  /**
   * With scale `Integer.MIN_VALUE` the scale tag is the lone 0x38, which the parser takes
   * for "a varint scale follows": the byte count is read as the scale.
   */
  lemma MinScaleMisread(f: Fields, rest: seq<byte>)
    ensures EncodeDecimal(1, Int32Min) == [0x38, 0x01, 0x01]
    ensures Next(f, EncodeDecimal(1, Int32Min) + rest) == DecimalBody(-1, f, [0x01] + rest)
  {
    assert Wrap32(-(Int32Min as int)) == Int32Min;
    var t := [0x01] + ([0x01] + rest);
    assert EncodeDecimal(1, Int32Min) + rest == [0x38] + t;
    NextOfCompact(f, 0x38, t);
    assert ReadVInt(t) == Ok((1, [0x01] + rest));
  }

  /** A payload of at most a buffer's length comes back whole, and not as a chunked stream. */
  lemma PayloadOf(g: Fields, b: seq<byte>, rest: seq<byte>)
    requires |b| <= Capacity
    ensures Payload(g, |b|, b + rest)
         == Ok((g.(inStream := false, objectValue := if g.token == String then OText(b) else OOctet(b)), rest))
  {
    TakeFront(b, rest);
  }

  /** A payload tag with its length in the low six bits. */
  lemma ShortPayloadOf(f: Fields, tag: byte, b: seq<byte>, rest: seq<byte>)
    requires tag >= 0x80 && tag % 64 == |b| < 63
    ensures var g := f.(token := if tag < 0xc0 then Octet else String);
      OctetOrString(tag, f, b + rest) == Payload(g, |b|, b + rest)
  {
  }

  /** A payload tag with a varint length, which is not 0 and so not a chunked stream. */
  lemma LongPayloadOf(f: Fields, tag: byte, b: seq<byte>, rest: seq<byte>)
    requires tag >= 0x80 && tag % 64 == 63 && 63 <= |b| <= Capacity
    ensures var g := f.(token := if tag < 0xc0 then Octet else String);
      OctetOrString(tag, f, VarUInt(|b|) + (b + rest)) == Payload(g, |b|, b + rest)
  {
    VarNatOfVarUInt(|b|, b + rest);
  }

  lemma NextOfOctet(f: Fields, b: seq<byte>, rest: seq<byte>)
    requires |b| <= Capacity
    ensures Next(f, EncodeOctet(b) + rest)
         == Ok((f.(token := Octet, inStream := false, objectValue := OOctet(b)), rest))
  {
    PayloadOf(f.(token := Octet), b, rest);
    if |b| < 63 {
      var tag: byte := 0x80 + |b|;
      assert EncodeOctet(b) == [tag] + b;
      Assoc([tag], b, rest);
      NextOfPayloadTag(f, tag, b + rest);
      ShortPayloadOf(f, tag, b, rest);
    } else {
      var e := VarUInt(|b|);
      assert EncodeOctet(b) == [0xbf] + e + b;
      Assoc([0xbf] + e, b, rest);
      Assoc([0xbf], e, b + rest);
      NextOfPayloadTag(f, 0xbf, e + (b + rest));
      LongPayloadOf(f, 0xbf, b, rest);
    }
  }

  lemma NextOfString(f: Fields, b: seq<byte>, rest: seq<byte>)
    requires |b| <= Capacity
    ensures Next(f, EncodeString(b) + rest)
         == Ok((f.(token := String, inStream := false, objectValue := OText(b)), rest))
  {
    PayloadOf(f.(token := String), b, rest);
    if |b| < 63 {
      var tag: byte := 0xc0 + |b|;
      assert EncodeString(b) == [tag] + b;
      Assoc([tag], b, rest);
      NextOfPayloadTag(f, tag, b + rest);
      ShortPayloadOf(f, tag, b, rest);
    } else {
      var e := VarUInt(|b|);
      assert EncodeString(b) == [0xff] + e + b;
      Assoc([0xff] + e, b, rest);
      Assoc([0xff], e, b + rest);
      NextOfPayloadTag(f, 0xff, e + (b + rest));
      LongPayloadOf(f, 0xff, b, rest);
    }
  }

  /** The four varints of a date-time, as `TimeCharFamily` reads them. */
  lemma DateTimeFieldsOf(f: Fields, year: int32, dayOfYear: int32, secondOfDay: int32, nanos: int64,
                         rest: seq<byte>)
    requires year != Int32Min && dayOfYear >= 0 && secondOfDay >= 0 && nanos >= 0
    ensures DateTimeBody(f, VSInt(year) + (VPInt(dayOfYear) + (VPInt(secondOfDay) + (VPLong(nanos) + rest))))
         == Ok((f.(token := DateTime, objectValue :=
                   OCalendar(year, dayOfYear, secondOfDay, Wrap32(JavaDiv(nanos, 1_000_000)))), rest))
  {
    var t3 := VPLong(nanos) + rest;
    var t2 := VPInt(secondOfDay) + t3;
    var t1 := VPInt(dayOfYear) + t2;
    ReadVSIntOfVSInt(year, t1);
    ReadVIntOfVPInt(dayOfYear, t2);
    ReadVIntOfVPInt(secondOfDay, t3);
    ReadVLongOfVPLong(nanos, rest);
  }

  /** The date-time bytes after the tag, grouped from the right. */
  lemma DateTimeBytes(year: int32, dayOfYear: int32, secondOfDay: int32, nanos: int64, rest: seq<byte>)
    ensures var a, b, c, d := VSInt(year), VPInt(dayOfYear), VPInt(secondOfDay), VPLong(nanos);
      [0x22] + a + b + c + d + rest == [0x22] + (a + (b + (c + (d + rest))))
  {
    var a, b, c, d := VSInt(year), VPInt(dayOfYear), VPInt(secondOfDay), VPLong(nanos);
    Assoc([0x22] + a + b + c, d, rest);
    Assoc([0x22] + a + b, c, d + rest);
    Assoc([0x22] + a, b, c + (d + rest));
    Assoc([0x22], a, b + (c + (d + rest)));
  }

  /**
   * The four calendar fields come back, for a year other than `Integer.MIN_VALUE` and
   * non-negative day, second and millisecond fields.
   */
  lemma NextOfDateTime(f: Fields, year: int32, dayOfYear: int32, secondOfDay: int32, millisecond: int32,
                        rest: seq<byte>)
    requires year != Int32Min && dayOfYear >= 0 && secondOfDay >= 0 && millisecond >= 0
    ensures Next(f, EncodeDateTime(year, dayOfYear, secondOfDay, millisecond) + rest)
         == Ok((f.(token := DateTime, objectValue := OCalendar(year, dayOfYear, secondOfDay, millisecond)), rest))
  {
    var nanos := Wrap64(millisecond * 1_000_000);
    NanosOfMillis(millisecond);
    DateTimeBytes(year, dayOfYear, secondOfDay, nanos, rest);
    var t := VSInt(year) + (VPInt(dayOfYear) + (VPInt(secondOfDay) + (VPLong(nanos) + rest)));
    NextOfCompact(f, 0x22, t);
    CompactOfDateTime(f, t);
    DateTimeFieldsOf(f, year, dayOfYear, secondOfDay, nanos, rest);
  }

  /** A non-negative millisecond count survives the trip to nanoseconds and back. */
  lemma NanosOfMillis(millisecond: int32)
    requires millisecond >= 0
    ensures Wrap64(millisecond * 1_000_000) >= 0
    ensures Wrap32(JavaDiv(Wrap64(millisecond * 1_000_000), 1_000_000)) == millisecond
  {
    assert 0 <= millisecond * 1_000_000 < Two63;
    assert (millisecond * 1_000_000) / 1_000_000 == millisecond;
  }

  /** Tag 0x22 of the compact family reads a date-time. */
  lemma CompactOfDateTime(f: Fields, t: seq<byte>)
    ensures CompactFamily(0x22, f, t) == DateTimeBody(f, t)
  {
  }

  /** An unsized array start reads as an `Array` of element count -1. */
  lemma NextOfStartArray(f: Fields, rest: seq<byte>)
    ensures var r := Next(f, EncodeStartArray() + rest);
      ReadsTo(r, Array, rest) && r.value.0.elementCount == -1
  {
    assert EncodeStartArray() + rest == [0x6f] + ([0x00] + rest);
    NextOfTag(f, 0x6f, [0x00] + rest);
    assert ReadVInt([0x00] + rest) == Ok((0, rest));
  }

  lemma NextOfStartObject(f: Fields, rest: seq<byte>)
    ensures var r := Next(f, EncodeStartObject() + rest);
      ReadsTo(r, Object, rest) && r.value.0.elementCount == -1
  {
    assert EncodeStartObject() + rest == [0x7f] + ([0x00] + rest);
    NextOfTag(f, 0x7f, [0x00] + rest);
    assert ReadVInt([0x00] + rest) == Ok((0, rest));
  }

  /** A count of 15 or more, after the tag of an unsized structure. */
  lemma LongCountOf(f: Fields, b: byte, count: int32, rest: seq<byte>)
    requires b == 0x6f || b == 0x7f
    requires count >= 15
    ensures VariableLength(b, f, VPInt(count) + rest)
         == Ok((f.(token := if b == 0x6f then Array else Object, elementCount := count), rest))
  {
    ReadVIntOfVPInt(count, rest);
    var n := NibbleLength(b, VPInt(count) + rest);
    assert n == Ok((count, rest));
    assert (b / 16) % 4 == (if b == 0x6f then 2 else 3);
  }

  /** A sized array start reads back its count, for every count a collection can have. */
  lemma NextOfStartArrayCount(f: Fields, count: int32, rest: seq<byte>)
    requires count >= 0
    ensures Next(f, EncodeStartArrayCount(count) + rest) == Ok((f.(token := Array, elementCount := count), rest))
  {
    if count < 15 {
      var tag: byte := 0x60 + count;
      assert EncodeStartArrayCount(count) == [tag];
      NextOfVariable(f, tag, rest);
    } else {
      assert EncodeStartArrayCount(count) == [0x6f] + VPInt(count);
      Assoc([0x6f], VPInt(count), rest);
      NextOfVariable(f, 0x6f, VPInt(count) + rest);
      LongCountOf(f, 0x6f, count, rest);
    }
  }

  lemma NextOfStartObjectCount(f: Fields, count: int32, rest: seq<byte>)
    requires count >= 0
    ensures Next(f, EncodeStartObjectCount(count) + rest) == Ok((f.(token := Object, elementCount := count), rest))
  {
    if count < 15 {
      var tag: byte := 0x70 + count;
      assert EncodeStartObjectCount(count) == [tag];
      NextOfVariable(f, tag, rest);
    } else {
      assert EncodeStartObjectCount(count) == [0x7f] + VPInt(count);
      Assoc([0x7f], VPInt(count), rest);
      NextOfVariable(f, 0x7f, VPInt(count) + rest);
      LongCountOf(f, 0x7f, count, rest);
    }
  }

  /** A negative count wraps into another tag: a start of -1 elements reads as a custom type. */
  lemma NegativeCountMisread(f: Fields, rest: seq<byte>)
    ensures EncodeStartArrayCount(-1) == [0x5f]
    ensures var r := Next(f, EncodeStartArrayCount(-1) + rest);
      r.Ok? ==> r.value.0.token == CustomType
  {
    NextOfTag(f, 0x5f, rest);
  }

  /**
   * The primitive-array tag comes without its count, so the parser takes the varint
   * at the front of whatever was written next as the element count.
   */
  lemma NextOfStartPrimitiveArray(f: Fields, k: PrimKind, count: int32, rest: seq<byte>)
    ensures var r := Next(f, EncodeStartPrimitiveArray(Primitive(k), count).value + rest);
      && (ReadVInt(rest).Ok? <==> r.Ok?)
      && (r.Ok? ==> r.value.0.token == PrimitiveArrayToken(k)
                    && (r.value.0.elementCount, r.value.1) == ReadVInt(rest).value)
  {
    var tag := PrimitiveArrayTag(k);
    NextOfTag(f, tag, rest);
    match k
    case BooleanKind =>
    case ShortKind =>
    case IntKind =>
    case LongKind =>
    case FloatKind =>
    case DoubleKind =>
    case CharKind =>
  }

  /** For instance an int array of three elements 1, 2, 3 reads as having 16 elements. */
  lemma PrimitiveArrayCountLost(f: Fields)
    ensures var s := EncodeStartPrimitiveArray(Primitive(IntKind), 3).value
                     + EncodeInt(1) + EncodeInt(2) + EncodeInt(3);
      Next(f, s) == Ok((f.(token := PrimitiveArrayOfInt, elementCount := 0x10),
                        [0x01, 0x10, 0x02, 0x10, 0x03]))
  {
    var t: seq<byte> := [0x10, 0x01, 0x10, 0x02, 0x10, 0x03];
    assert EncodeStartPrimitiveArray(Primitive(IntKind), 3).value
           + EncodeInt(1) + EncodeInt(2) + EncodeInt(3) == [0x2a] + t;
    NextOfTag(f, 0x2a, t);
    assert ReadVInt(t) == Ok((0x10, t[1..]));
  }

  /** The name bytes the parser reads for a custom type whose tag or varint says `|name| - 1`. */
  lemma CustomTypeBodyOf(f: Fields, b: byte, name: seq<byte>, t: seq<byte>, rest: seq<byte>)
    requires 0x50 <= b < 0x60 && 0 < |name| <= Capacity
    requires NibbleLength(b, t) == Ok((|name| - 1, name + rest))
    ensures var n := |name| - 1;
      VariableLength(b, f, t) == Ok((f.(token := CustomType, objectValue := OText(name[..n])), [name[n]] + rest))
  {
    var n := |name| - 1;
    assert name + rest == name[..n] + ([name[n]] + rest);
    TakeFront(name[..n], [name[n]] + rest);
  }

  /**
   * The custom type's tag holds its name's length minus one and the parser reads that many
   * bytes: the name reads without its last byte, which is left in the stream.
   */
  lemma NextOfCustomType(f: Fields, name: seq<byte>, rest: seq<byte>)
    requires 0 < |name| <= Capacity
    ensures var n := |name| - 1;
      Next(f, EncodeCustomType(name).value + rest)
        == Ok((f.(token := CustomType, objectValue := OText(name[..n])), [name[n]] + rest))
  {
    var n := |name| - 1;
    if |name| < 16 {
      var tag: byte := 0x50 + n;
      assert EncodeCustomType(name).value == [tag] + name;
      Assoc([tag], name, rest);
      NextOfVariable(f, tag, name + rest);
      CustomTypeBodyOf(f, tag, name, name + rest, rest);
    } else {
      var e := VarUInt(n);
      assert EncodeCustomType(name).value == [0x5f] + e + name;
      Assoc([0x5f] + e, name, rest);
      Assoc([0x5f], e, name + rest);
      NextOfVariable(f, 0x5f, e + (name + rest));
      NibbleOfVarUInt(0x5f, n, name + rest);
      CustomTypeBodyOf(f, 0x5f, name, e + (name + rest), rest);
    }
  }

  /** The header reads back, leaving exactly what follows it. */
  lemma ReadHeaderOfHeader(rest: seq<byte>)
    ensures ReadHeader(Header + rest) == Ok(rest)
  {
    assert (Header + rest)[..5] == Header && (Header + rest)[5..] == rest;
  }
}
