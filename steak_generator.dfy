/**
 * `SteakGenerator`: the writer of the Steak format. It keeps an 8192-byte buffer in front of a
 * byte channel, reserves room before each write (`ensureBuffer`) and flushes the buffer
 * when the room is short. Every write is proved to append exactly the bytes its
 * `SteakEncoding` function gives to what has been written, that is to the bytes the channel
 * has accepted followed by the buffered ones, and never to write past the buffer's end.
 */
module SteakGeneration {
  import opened JavaTypes
  import opened SteakWire
  import opened SteakEncoding

  class SteakGenerator {
    /** The bytes the channel has accepted so far. */
    var sent: seq<byte>
    /** The most bytes the channel accepts in one `write` call; it may take fewer than offered. */
    const chunk: nat
    /** The buffer and its position; its limit is always its capacity while writing. */
    const buffer: array<byte>
    var position: nat
    /** Everything written so far: what the channel took, then what is still buffered. */
    ghost var written: seq<byte>

    ghost predicate Valid()
      reads this, buffer
    {
      buffer.Length == Capacity && position <= Capacity && chunk > 0
      && written == sent + buffer[..position]
    }

    /** The constructor buffers the header. */
    constructor (chunk: nat)
      requires chunk > 0
      ensures Valid() && fresh(buffer)
      ensures sent == [] && written == Header
    {
      this.chunk := chunk;
      sent := [];
      buffer := new byte[Capacity];
      position := 0;
      written := [];
      new;
      PutAll(Header);
    }

    /** `buffer.put(x)`: there must be room for it. */
    method Put(x: byte)
      requires Valid() && position < Capacity
      modifies this, buffer
      ensures Valid() && sent == old(sent) && position == old(position) + 1
      ensures written == old(written) + [x]
    {
      buffer[position] := x;
      position := position + 1;
      written := written + [x];
      assert buffer[..position] == old(buffer[..position]) + [x];
    }

    /** `buffer.put(byte[])`, and `putShort`/`putInt`/`putLong` of their big-endian bytes. */
    method PutAll(b: seq<byte>)
      requires Valid() && position + |b| <= Capacity
      modifies this, buffer
      ensures Valid() && sent == old(sent) && position == old(position) + |b|
      ensures written == old(written) + b
    {
      var i := 0;
      while i < |b|
        invariant 0 <= i <= |b|
        invariant Valid() && sent == old(sent) && position == old(position) + i
        invariant written == old(written) + b[..i]
      {
        Put(b[i]);
        assert b[..i + 1] == b[..i] + [b[i]];
        i := i + 1;
      }
      assert b[..i] == b;
    }

    /** `flushBuffer(b)`: offer the channel what is left of `b` until it has taken all of it. */
    method FlushBuffer(b: seq<byte>)
      requires chunk > 0
      modifies this`sent
      ensures sent == old(sent) + b
    {
      var done := 0;
      while done < |b|
        invariant 0 <= done <= |b|
        invariant sent == old(sent) + b[..done]
        decreases |b| - done
      {
        var n := if |b| - done < chunk then |b| - done else chunk;
        sent := sent + b[done..done + n];
        assert b[..done + n] == b[..done] + b[done..done + n];
        done := done + n;
      }
      assert b[..done] == b;
    }

    /** `flush()`: the buffered bytes go to the channel and the buffer is emptied. */
    method Flush()
      requires Valid()
      modifies this
      ensures Valid() && position == 0
      ensures sent == old(written) && written == old(written)
    {
      FlushBuffer(buffer[..position]);
      position := 0;
    }

    /** `ensureBuffer(size)`: flush unless `size` bytes of room are left. */
    method EnsureBuffer(size: int)
      requires Valid()
      modifies this
      ensures Valid() && written == old(written)
      ensures size <= Capacity - old(position) ==> position == old(position)
      ensures position + size <= Capacity || position == 0
    {
      if Capacity - position < size {
        Flush();
      }
    }

    // ---------------------------------------------------------------- the number writers

    /**
     * `writeVPInt(i)`: seven bits a byte while more than seven are left, then the low byte
     * of what is left; a negative argument skips the loop.
     */
    method WriteVPInt(i: int32)
      requires Valid() && position + |VPInt(i)| <= Capacity
      modifies this, buffer
      ensures Valid() && sent == old(sent)
      ensures written == old(written) + VPInt(i)
    {
      WriteVarint(i);
    }

    /** `writeVPLong(l)`, the same loop on a `long`. */
    method WriteVPLong(l: int64)
      requires Valid() && position + |VPLong(l)| <= Capacity
      modifies this, buffer
      ensures Valid() && sent == old(sent)
      ensures written == old(written) + VPLong(l)
    {
      WriteVarint(l);
    }

    /** The loop of `writeVPInt` and `writeVPLong`, whose `>>= 7` on a positive value is `/ 0x80`. */
    method WriteVarint(i: int)
      requires Valid() && position + |Varint(i)| <= Capacity
      modifies this, buffer
      ensures Valid() && sent == old(sent)
      ensures written == old(written) + Varint(i)
    {
      var x := i;
      while x > 0x7f
        invariant Valid() && sent == old(sent)
        invariant x >= 0 ==> written + VarUInt(x) == old(written) + Varint(i)
                             && position + |VarUInt(x)| <= Capacity
        invariant x < 0 ==> x == i && written == old(written)
        decreases x
      {
        x := PutGroup(x);
      }
      PutLast(x);
    }

    /** One turn of the loop: the low seven bits with 0x80 set, and the value shifted right. */
    method PutGroup(x: nat) returns (y: nat)
      requires Valid() && x > 0x7f && position + |VarUInt(x)| <= Capacity
      modifies this, buffer
      ensures Valid() && sent == old(sent) && y < x
      ensures written + VarUInt(y) == old(written) + VarUInt(x)
      ensures position + |VarUInt(y)| <= Capacity
    {
      VarUIntStep(x);
      var b: byte := x % 0x80 + 0x80;
      y := x / 0x80;
      Assoc(written, [b], VarUInt(y));
      Put(b);
    }

    /** The byte after the loop: `(byte) x` of what is left. */
    method PutLast(x: int)
      requires Valid() && x <= 0x7f && position < Capacity
      modifies this, buffer
      ensures Valid() && sent == old(sent)
      ensures written == old(written) + Varint(x)
    {
      var b: byte := x % 0x100;
      if x >= 0 {
        LowByteOfSmall(x);
        assert VarUInt(x) == [b];
      }
      Put(b);
    }

    /** `writeVSInt(i)`: the sign in 0x40 of the first byte, then the magnitude. */
    method WriteVSInt(i: int32)
      requires Valid() && position + 6 <= Capacity
      modifies this, buffer
      ensures Valid() && sent == old(sent)
      ensures written == old(written) + VSInt(i)
    {
      var neg := i < 0;
      var m: int32 := if neg then Wrap32(-(i as int)) else i;
      var first: byte := (if neg then 0x40 else 0) + m % 0x40;
      assert VSInt(i) == SignMagnitude(neg, m);
      if m > 0x3f {
        SignMagnitudeParts(neg, m);
        Put(first + 0x80);
        WriteVPInt(m / 0x40);
        Assoc(old(written), [first + 0x80], VPInt(m / 0x40));
      } else {
        Put(first);
      }
    }

    /** `writeOctet(b)`: into the buffer when there is room, else straight to the channel. */
    method WriteOctetBytes(b: seq<byte>)
      requires Valid()
      modifies this, buffer
      ensures Valid() && written == old(written) + b
    {
      if Capacity - position < |b| {
        Flush();
        FlushBuffer(b);
        written := written + b;
      } else {
        PutAll(b);
      }
    }

    // ---------------------------------------------------------------- the scalar writes

    method Close()
      requires Valid()
      modifies this
      ensures Valid() && position == 0
      ensures sent == old(written)
    {
      Flush();
    }

    method WriteNull()
      requires Valid()
      modifies this, buffer
      ensures Valid() && written == old(written) + EncodeNull()
    {
      EnsureBuffer(1);
      Put(0x1e);
    }

    method WriteBoolean(value: bool)
      requires Valid()
      modifies this, buffer
      ensures Valid() && written == old(written) + EncodeBoolean(value)
    {
      EnsureBuffer(1);
      Put(if value then 0x1d else 0x1c);
    }

    method WriteByte(value: int8)
      requires Valid()
      modifies this, buffer
      ensures Valid() && written == old(written) + EncodeByte(value)
    {
      if value == 0 {
        EnsureBuffer(1);
        Put(0x00);
      } else {
        EnsureBuffer(2);
        Put(0x08);
        Put(value % 0x100);
      }
    }

    method WriteShort(value: int16)
      requires Valid()
      modifies this, buffer
      ensures Valid() && written == old(written) + EncodeShort(value)
    {
      if value == 0 {
        EnsureBuffer(1);
        Put(0x01);
      } else if -0x80 <= value <= 0x7f {
        EnsureBuffer(2);
        Put(0x13);
        Put(value % 0x100);
      } else {
        EnsureBuffer(3);
        Put(0x09);
        PutAll(BE(value, 2));
      }
    }

    method WriteInt(value: int32)
      requires Valid()
      modifies this, buffer
      ensures Valid() && written == old(written) + EncodeInt(value)
    {
      if value == 0 {
        EnsureBuffer(1);
        Put(0x02);
      } else if -IntVMax <= value <= IntVMax {
        var tag: byte, m: int32 := if value > 0 then 0x10 else 0x11, if value > 0 then value else -value;
        IntVarintParts(value);
        EnsureBuffer(4);
        Put(tag);
        WriteVPInt(m);
        Assoc(old(written), [tag], VPInt(m));
      } else {
        EnsureBuffer(5);
        Put(0x0a);
        PutAll(BE(value, 4));
        Assoc(old(written), [0x0a], BE(value, 4));
      }
    }

    method WriteLong(value: int64)
      requires Valid()
      modifies this, buffer
      ensures Valid() && written == old(written) + EncodeLong(value)
    {
      if value == 0 {
        EnsureBuffer(1);
        Put(0x03);
      } else if -LongVMax <= value <= LongVMax {
        var tag: byte, m: int64 := if value > 0 then 0x14 else 0x15, if value > 0 then value else -value;
        LongVarintParts(value);
        EnsureBuffer(8);
        Put(tag);
        WriteVPLong(m);
        Assoc(old(written), [tag], VPLong(m));
      } else {
        EnsureBuffer(9);
        Put(0x0b);
        PutAll(BE(value, 8));
        Assoc(old(written), [0x0b], BE(value, 8));
      }
    }

    /** `write(float)` of the value's IEEE 754 bits; both zeros compare equal to 0. */
    method WriteFloat(bits: nat)
      requires Valid() && bits < Two32
      modifies this, buffer
      ensures Valid() && written == old(written) + EncodeFloat(bits)
    {
      if IsZeroFloat(bits) {
        EnsureBuffer(1);
        Put(0x18);
      } else {
        EnsureBuffer(5);
        Put(0x19);
        PutAll(BE(bits, 4));
        Assoc(old(written), [0x19], BE(bits, 4));
      }
    }

    method WriteDouble(bits: nat)
      requires Valid() && bits < Two64
      modifies this, buffer
      ensures Valid() && written == old(written) + EncodeDouble(bits)
    {
      if IsZeroDouble(bits) {
        EnsureBuffer(1);
        Put(0x1a);
      } else {
        EnsureBuffer(9);
        Put(0x1b);
        PutAll(BE(bits, 8));
        Assoc(old(written), [0x1b], BE(bits, 8));
      }
    }

    method WriteChar(value: char16)
      requires Valid()
      modifies this, buffer
      ensures Valid() && written == old(written) + EncodeChar(value)
    {
      if value <= 0xff {
        EnsureBuffer(2);
        Put(0x24);
        Put(value);
      } else {
        EnsureBuffer(3);
        Put(0x25);
        PutAll(BE(value, 2));
        Assoc(old(written), [0x25], BE(value, 2));
      }
    }

    /** `writeChar(int)`: a value that is no code point throws before anything is written. */
    method WriteCodePoint(value: int32) returns (o: Outcome)
      requires Valid()
      modifies this, buffer
      ensures Valid()
      ensures o.Pass? <==> EncodeCodePoint(value).Ok?
      ensures o.Fail? ==> o.error == InvalidCodePoint && written == old(written) && sent == old(sent)
      ensures o.Pass? ==> written == old(written) + EncodeCodePoint(value).value
    {
      if !IsCodePoint(value) {
        return Fail(InvalidCodePoint);
      }
      if value < 0x1_0000 {
        WriteChar(value);
      } else {
        VarUIntLength(value, 3);
        EnsureBuffer(6);
        Put(0x26);
        WriteVPInt(value);
        Assoc(old(written), [0x26], VPInt(value));
      }
      return Pass;
    }

    // ---------------------------------------------------------------- big numbers and payloads

    /** `write(BigInteger)` of a value whose `toByteArray()` has fewer than 2^31 bytes. */
    method WriteBigInteger(value: int)
      requires Valid() && |ToTwos(value)| < Two31
      modifies this, buffer
      ensures Valid() && written == old(written) + EncodeBigInteger(value)
    {
      if value == 0 {
        EnsureBuffer(1);
        Put(0x40);
      } else {
        var b := ToTwos(value);
        ghost var head: seq<byte>;
        if |b| < 15 {
          EnsureBuffer(1 + |b|);
          Put(0x40 + |b|);
          head := [0x40 + |b|];
        } else {
          LengthFits(|b|);
          EnsureBuffer(5 + |b|);
          Put(0x4f);
          WriteVPInt(|b|);
          Assoc(old(written), [0x4f], VPInt(|b|));
          head := [0x4f] + VarUInt(|b|);
        }
        assert EncodeBigInteger(value) == head + b;
        WriteOctetBytes(b);
        Assoc(old(written), head, b);
      }
    }

    /** The scale part of `write(BigDecimal)`. */
    method WriteScale(scale: int32)
      requires Valid() && position + 6 <= Capacity
      modifies this, buffer
      ensures Valid() && sent == old(sent)
      ensures written == old(written) + ScaleTag(scale)
    {
      if scale >= 0 {
        if scale < 7 {
          Put(0x30 + scale);
        } else {
          VPIntLength(scale);
          Put(0x37);
          WriteVPInt(scale);
          Assoc(old(written), [0x37], VPInt(scale));
        }
      } else {
        var m := Wrap32(-(scale as int));
        if m < 8 {
          Put((0x38 + m) % 0x100);
        } else {
          VPIntLength(m);
          Put(0x38);
          WriteVPInt(m);
          Assoc(old(written), [0x38], VPInt(m));
        }
      }
    }

    /** `write(BigDecimal)` of `unscaled × 10^-scale`. */
    method WriteDecimal(unscaled: int, scale: int32)
      requires Valid() && |ToTwos(unscaled)| < Two31
      modifies this, buffer
      ensures Valid() && written == old(written) + EncodeDecimal(unscaled, scale)
    {
      if unscaled == 0 && scale == 0 {
        EnsureBuffer(1);
        Put(0x27);
      } else {
        var b := ToTwos(unscaled);
        ScaleTagFits(scale);
        LengthFits(|b|);
        EnsureBuffer(11 + |b|);
        WriteScale(scale);
        ghost var w1 := written;
        WriteVPInt(|b|);
        ghost var w2 := written;
        WriteOctetBytes(b);
        DecimalParts(old(written), unscaled, scale, w1, w2, written);
      }
    }

    /** `write(ByteBuffer)` of the buffer's remaining bytes, and `write(byte[])`. */
    method WriteOctet(value: seq<byte>)
      requires Valid() && |value| < Two31
      modifies this, buffer
      ensures Valid() && written == old(written) + EncodeOctet(value)
    {
      var len := |value|;
      ghost var head: seq<byte>;
      if len < 63 {
        EnsureBuffer(1 + len);
        Put(0x80 + len);
        head := [0x80 + len];
      } else {
        LengthFits(len);
        EnsureBuffer(6 + len);
        Put(0xbf);
        WriteVPInt(len);
        Assoc(old(written), [0xbf], VPInt(len));
        head := [0xbf] + VarUInt(len);
      }
      assert EncodeOctet(value) == head + value;
      WriteOctetBytes(value);
      Assoc(old(written), head, value);
    }

    /** `write(String)` of the string's UTF-8 bytes. */
    method WriteString(utf8: seq<byte>)
      requires Valid() && |utf8| < Two31
      modifies this, buffer
      ensures Valid() && written == old(written) + EncodeString(utf8)
    {
      LengthFits(|utf8|);
      EnsureBuffer(6 + |utf8|);
      ghost var head: seq<byte>;
      if |utf8| < 63 {
        Put(0xc0 + |utf8|);
        head := [0xc0 + |utf8|];
      } else {
        Put(0xff);
        WriteVPInt(|utf8|);
        Assoc(old(written), [0xff], VPInt(|utf8|));
        head := [0xff] + VarUInt(|utf8|);
      }
      assert EncodeString(utf8) == head + utf8;
      WriteOctetBytes(utf8);
      Assoc(old(written), head, utf8);
    }

    /**
     * `write(Calendar)` of the calendar's fields: the second of day is computed in `int`
     * arithmetic, the nanoseconds in `long` arithmetic.
     */
    method WriteCalendar(year: int32, dayOfYear: int32, hourOfDay: int32, minute: int32, second: int32,
                         millisecond: int32)
      requires Valid()
      modifies this, buffer
      ensures Valid()
      ensures written == old(written)
                + EncodeDateTime(year, dayOfYear, SecondOfDay(hourOfDay, minute, second), millisecond)
    {
      var secondOfDay := SecondOfDay(hourOfDay, minute, second);
      var nanos := Wrap64(millisecond * 1_000_000);
      VSIntLength(year);
      VPIntLength(dayOfYear);
      VPIntLength(secondOfDay);
      VPLongLength(nanos);
      EnsureBuffer(26);
      ghost var w0 := written;
      Put(0x22);
      WriteVSInt(year);
      ghost var w1 := written;
      WriteVPInt(dayOfYear);
      ghost var w2 := written;
      WriteVPInt(secondOfDay);
      ghost var w3 := written;
      WriteVPLong(nanos);
      DateTimeParts(w0, year, dayOfYear, secondOfDay, millisecond, w1, w2, w3, written);
    }

    // ---------------------------------------------------------------- structures

    method WriteStartArray()
      requires Valid()
      modifies this, buffer
      ensures Valid() && written == old(written) + EncodeStartArray()
    {
      EnsureBuffer(2);
      Put(0x6f);
      Put(0);
    }

    method WriteStartArrayCount(count: int32)
      requires Valid()
      modifies this, buffer
      ensures Valid() && written == old(written) + EncodeStartArrayCount(count)
    {
      if count < 15 {
        EnsureBuffer(1);
        Put((0x60 + count) % 0x100);
      } else {
        VPIntLength(count);
        EnsureBuffer(6);
        Put(0x6f);
        WriteVPInt(count);
        Assoc(old(written), [0x6f], VPInt(count));
      }
    }

    /**
     * `writeStartPrimitiveArray(type, count)`: a reference type throws at once; `byte`
     * throws after the room is reserved, so the buffer may have been flushed.
     */
    method WriteStartPrimitiveArray(t: ElementType, count: int32) returns (o: Outcome)
      requires Valid()
      modifies this, buffer
      ensures Valid()
      ensures o.Pass? <==> EncodeStartPrimitiveArray(t, count).Ok?
      ensures o.Fail? ==> o.error == EncodeStartPrimitiveArray(t, count).error && written == old(written)
      ensures o.Pass? ==> written == old(written) + EncodeStartPrimitiveArray(t, count).value
      ensures t.ReferenceType? ==> sent == old(sent)
    {
      if t.ReferenceType? {
        return Fail(NotPrimitive);
      }
      EnsureBuffer(1);
      o := Pass;
      match t
      case Primitive(k) =>
        Put(PrimitiveArrayTag(k));
      case ByteType =>
        o := Fail(ByteArrayAsPrimitive);
      case VoidType =>
    }

    method WriteEndArray()
      requires Valid()
      modifies this, buffer
      ensures Valid() && written == old(written) + EncodeEndArray()
    {
      EnsureBuffer(1);
      Put(0x1f);
    }

    method WriteStartObject()
      requires Valid()
      modifies this, buffer
      ensures Valid() && written == old(written) + EncodeStartObject()
    {
      EnsureBuffer(2);
      Put(0x7f);
      Put(0);
    }

    method WriteStartObjectCount(count: int32)
      requires Valid()
      modifies this, buffer
      ensures Valid() && written == old(written) + EncodeStartObjectCount(count)
    {
      if count < 15 {
        EnsureBuffer(1);
        Put((0x70 + count) % 0x100);
      } else {
        VPIntLength(count);
        EnsureBuffer(6);
        Put(0x7f);
        WriteVPInt(count);
        Assoc(old(written), [0x7f], VPInt(count));
      }
    }

    method WriteEndObject()
      requires Valid()
      modifies this, buffer
      ensures Valid() && written == old(written) + EncodeEndObject()
    {
      EnsureBuffer(1);
      Put(0x1f);
    }

    /** `writeCustomType(name)` of the name's UTF-8 bytes; an empty name throws. */
    method WriteCustomType(name: seq<byte>) returns (o: Outcome)
      requires Valid() && |name| < Two31
      modifies this, buffer
      ensures Valid()
      ensures o.Pass? <==> EncodeCustomType(name).Ok?
      ensures o.Fail? ==> o.error == EmptyTypeName && written == old(written) && sent == old(sent)
      ensures o.Pass? ==> written == old(written) + EncodeCustomType(name).value
    {
      if |name| == 0 {
        return Fail(EmptyTypeName);
      }
      ghost var head: seq<byte>;
      if |name| < 16 {
        EnsureBuffer(1 + |name|);
        Put(0x50 + |name| - 1);
        head := [0x50 + |name| - 1];
      } else {
        LengthFits(|name| - 1);
        EnsureBuffer(6 + |name|);
        Put(0x5f);
        WriteVPInt(|name| - 1);
        Assoc(old(written), [0x5f], VPInt(|name| - 1));
        head := [0x5f] + VarUInt(|name| - 1);
      }
      assert EncodeCustomType(name).value == head + name;
      WriteOctetBytes(name);
      Assoc(old(written), head, name);
      return Pass;
    }
  }

  /** `HOUR_OF_DAY * 3600 + MINUTE * 60 + SECOND` in `int` arithmetic. */
  function SecondOfDay(hourOfDay: int32, minute: int32, second: int32): (r: int32)
    ensures 0 <= hourOfDay < 24 && 0 <= minute < 60 && 0 <= second < 61 ==> r == hourOfDay * 3600 + minute * 60 + second
  {
    Wrap32(Wrap32(Wrap32(hourOfDay * 3600) + Wrap32(minute * 60)) + second)
  }

  /** The varint form of `write(int)`: a sign tag and at most three bytes of magnitude. */
  lemma IntVarintParts(v: int32)
    requires v != 0 && -IntVMax <= v <= IntVMax
    ensures var m: int32 := if v > 0 then v else -v;
      EncodeInt(v) == [if v > 0 then 0x10 else 0x11] + VPInt(m) && |VPInt(m)| <= 3
  {
    VarUIntLength(if v > 0 then v else -v, 3);
  }

  lemma LongVarintParts(v: int64)
    requires v != 0 && -LongVMax <= v <= LongVMax
    ensures var m: int64 := if v > 0 then v else -v;
      EncodeLong(v) == [if v > 0 then 0x14 else 0x15] + VPLong(m) && |VPLong(m)| <= 7
  {
    VarUIntLength(if v > 0 then v else -v, 7);
  }

  /** The two bytes groups of a signed varint with a magnitude above 0x3f. */
  lemma SignMagnitudeParts(neg: bool, m: int32)
    requires m > 0x3f
    ensures var first := (if neg then 0x40 else 0) + m % 0x40;
      SignMagnitude(neg, m) == [first + 0x80] + VPInt(m / 0x40) && |VPInt(m / 0x40)| <= 5
  {
    VPIntLength(m / 0x40);
  }

  /** The scale, count and bytes of `write(BigDecimal)`, written one after the other. */
  lemma DecimalParts(w0: seq<byte>, unscaled: int, scale: int32, w1: seq<byte>, w2: seq<byte>, w3: seq<byte>)
    requires !(unscaled == 0 && scale == 0) && |ToTwos(unscaled)| < Two31
    requires w1 == w0 + ScaleTag(scale)
    requires w2 == w1 + VPInt(|ToTwos(unscaled)|)
    requires w3 == w2 + ToTwos(unscaled)
    ensures w3 == w0 + EncodeDecimal(unscaled, scale)
  {
    var b := ToTwos(unscaled);
    var t, e := ScaleTag(scale), VarUInt(|b|);
    assert VPInt(|b|) == e;
    assert EncodeDecimal(unscaled, scale) == t + e + b;
    calc {
      w3;
      (w0 + t + e) + b;
      { Assoc(w0 + t, e, b); }
      (w0 + t) + (e + b);
      { Assoc(w0, t, e + b); }
      w0 + (t + (e + b));
      { Assoc(t, e, b); }
      w0 + (t + e + b);
    }
  }

  /** The tag and the four varints of `write(Calendar)`, written one after the other. */
  lemma DateTimeParts(w0: seq<byte>, year: int32, dayOfYear: int32, secondOfDay: int32, millisecond: int32,
                      w1: seq<byte>, w2: seq<byte>, w3: seq<byte>, w4: seq<byte>)
    requires w1 == w0 + [0x22] + VSInt(year)
    requires w2 == w1 + VPInt(dayOfYear)
    requires w3 == w2 + VPInt(secondOfDay)
    requires w4 == w3 + VPLong(Wrap64(millisecond * 1_000_000))
    ensures w4 == w0 + EncodeDateTime(year, dayOfYear, secondOfDay, millisecond)
  {
  }
}
