/**
 * `SteakParser`: the pull parser of the Steak format. It reads the byte channel through an
 * 8192-byte buffer (`readToBuffer` compacts the buffer and refills it) and keeps the state of
 * the current token in its fields. Every method is proved to do what the functions of
 * `SteakDecoding` say to the parser's fields and to the bytes not yet consumed: those still
 * buffered, followed by those the channel has not delivered yet.
 */
module SteakParsing {
  import opened JavaTypes
  import opened TbonToken
  import opened SteakWire
  import opened SteakDecoding

  /**
   * A method returned `r` and left `unread` where the function gave `spec`: both succeed or
   * both fail with the same error, and on success they agree on the value and the remainder.
   */
  ghost predicate Agrees<T>(r: Result<T>, spec: Result<(T, seq<byte>)>, unread: seq<byte>)
  {
    && (r.Ok? <==> spec.Ok?)
    && (r.Err? ==> spec.Err? && r.error == spec.error)
    && (r.Ok? ==> r.value == spec.value.0 && unread == spec.value.1)
  }

  /** The varint read so far is worth `acc`; what is left of it counts `weight` times. */
  function Shift(acc: nat, weight: nat, r: Result<(nat, seq<byte>)>): Result<(nat, seq<byte>)>
  {
    match r
    case Err(e) => Err(e)
    case Ok(p) => Ok((acc + weight * p.0, p.1))
  }

  /** Seven more low bits `d` in front of a value `v`: the same total either way round. */
  lemma ShiftArith(acc: nat, weight: nat, d: nat, v: nat, rest: seq<byte>)
    ensures Shift(acc, weight, Ok((d + 0x80 * v, rest))) == Shift(acc + d * weight, weight * 0x80, Ok((v, rest)))
  {
    assert weight * (d + 0x80 * v) == weight * d + weight * (0x80 * v);
    assert weight * (0x80 * v) == (weight * 0x80) * v;
  }

  /** One more byte with 0x80 set: its seven low bits join the accumulated value. */
  lemma ShiftStep(acc: nat, weight: nat, s: seq<byte>, d: nat)
    requires |s| > 0 && s[0] >= 0x80 && d == s[0] % 0x80
    ensures Shift(acc, weight, VarNat(s)) == Shift(acc + d * weight, weight * 0x80, VarNat(s[1..]))
  {
    match VarNat(s[1..])
    case Err(e) =>
      assert VarNat(s) == Err(e);
    case Ok(p) =>
      assert VarNat(s) == Ok((d + 0x80 * p.0, p.1));
      ShiftArith(acc, weight, d, p.0, p.1);
  }

  /** A payload is its bytes, taken as `readOctet` takes them. */
  lemma PayloadOf(g: Fields, len: int32, u: seq<byte>)
    ensures TakeOctet(u, len).Err? ==> Payload(g, len, u) == Err(TakeOctet(u, len).error)
    ensures TakeOctet(u, len).Ok? ==> var p := TakeOctet(u, len).value;
      Payload(g, len, u) == Ok((g.(inStream := false, objectValue := if g.token == String then OText(p.0) else OOctet(p.0)), p.1))
  {
  }

  /** `out` was collected before the rest of the chunks, whose outcome is `r`. */
  function After(out: seq<byte>, r: Result<(seq<byte>, seq<byte>)>): Result<(seq<byte>, seq<byte>)>
  {
    match r
    case Err(e) => Err(e)
    case Ok(p) => Ok((out + p.0, p.1))
  }

  lemma AfterAfter(a: seq<byte>, b: seq<byte>, r: Result<(seq<byte>, seq<byte>)>)
    ensures After(a, After(b, r)) == After(a + b, r)
  {
    if r.Ok? {
      assert a + (b + r.value.0) == (a + b) + r.value.0;
    }
  }

  lemma AfterNothing(r: Result<(seq<byte>, seq<byte>)>)
    ensures After([], r) == r
  {
    if r.Ok? {
      assert [] + r.value.0 == r.value.0;
    }
  }

  /** The chunks of a streamed payload once the length `len` of the next one has been read. */
  function ChunksFrom(len: int32, s: seq<byte>): Result<(seq<byte>, seq<byte>)>
  {
    if len > 0 then
      var p :- TakeOctet(s, len);
      var more :- ReadChunks(p.1);
      Ok((p.0 + more.0, more.1))
    else Ok(([], s))
  }

  class SteakParser {
    /** The bytes the channel has not delivered yet. */
    var source: seq<byte>
    /** The buffer, read between `position` and `limit` (the buffer in read mode). */
    const buffer: array<byte>
    var position: nat
    var limit: nat

    var currentToken: Token
    var elementCount: int32
    var inStream: bool
    var byteValue: int8
    var shortValue: int16
    var intValue: int32
    var longValue: int64
    var floatBits: nat
    var doubleBits: nat
    var charValue: char16
    var objectValue: Obj

    ghost predicate Valid()
      reads this, buffer
    {
      buffer.Length == Capacity && position <= limit <= Capacity
    }

    /** The bytes not consumed yet: the rest of the buffer, then the rest of the channel. */
    ghost function Unread(): seq<byte>
      reads this, buffer
      requires Valid()
    {
      buffer[position..limit] + source
    }

    /** The fields that describe the current token. */
    ghost function State(): Fields
      reads this
    {
      Fields(currentToken, elementCount, inStream, byteValue, shortValue, intValue, longValue,
             floatBits, doubleBits, charValue, objectValue)
    }

    /** The method's outcome and new state are what the step function `spec` gives. */
    ghost predicate Did(o: Outcome, spec: Result<(Fields, seq<byte>)>)
      reads this, buffer
      requires Valid()
    {
      && (o.Pass? <==> spec.Ok?)
      && (o.Fail? ==> spec.Err? && o.error == spec.error)
      && (spec.Ok? ==> State() == spec.value.0 && Unread() == spec.value.1)
    }

    /** A parser on a channel holding `input`, before the header is read: an empty buffer. */
    constructor (input: seq<byte>)
      ensures Valid() && fresh(buffer)
      ensures Unread() == input && State() == Initial
    {
      source := input;
      buffer := new byte[Capacity];
      position, limit := 0, 0;
      currentToken, elementCount, inStream := NotAvailable, -1, false;
      byteValue, shortValue, intValue, longValue := 0, 0, 0, 0;
      floatBits, doubleBits, charValue, objectValue := 0, 0, 0, ONull;
    }

    // ---------------------------------------------------------------- the buffer

    /** `buffer.compact()`: the unread bytes move to the front; it returns how many there are. */
    method Compact() returns (read: nat)
      requires Valid()
      modifies this, buffer
      ensures Valid() && State() == old(State()) && source == old(source)
      ensures read == old(limit - position) && buffer[..read] == old(buffer[position..limit])
    {
      read := limit - position;
      ghost var rest := buffer[position..limit];
      var i := 0;
      while i < read
        modifies buffer
        invariant 0 <= i <= read
        invariant buffer[..i] == rest[..i]
        invariant forall k :: i <= k < Capacity ==> buffer[k] == old(buffer[k])
      {
        buffer[i] := buffer[position + i];
        i := i + 1;
      }
      position, limit := 0, read;
    }

    /**
     * `in.read(buffer)` after `read` buffered bytes: the channel delivers what fits, and
     * answers -1 at its end.
     */
    method Receive(read: nat) returns (r: int)
      requires Valid() && read <= Capacity
      modifies this`source, buffer
      ensures Valid()
      ensures r >= -1 && (r == -1 <==> old(source) == [])
      ensures r >= 0 ==> read + r <= Capacity && r == Min(Capacity - read, |old(source)|)
      ensures r >= 0 ==> buffer[..read + r] == old(buffer[..read]) + old(source)[..r] && source == old(source)[r..]
      ensures r == -1 ==> buffer[..read] == old(buffer[..read]) && source == old(source)
    {
      if source == [] {
        return -1;
      }
      r := Min(Capacity - read, |source|);
      var j := 0;
      while j < r
        modifies buffer
        invariant 0 <= j <= r
        invariant buffer[..read + j] == old(buffer[..read]) + source[..j]
      {
        buffer[read + j] := source[j];
        assert source[..j + 1] == source[..j] + [source[j]];
        j := j + 1;
      }
      source := source[r..];
    }

    /**
     * `readToBuffer(size)`: return at once when `size` bytes are buffered, else compact the
     * buffer and read until they are. A channel at its end throws; a request larger than the
     * buffer while the channel still has data never returns in Java (each read then gets 0
     * bytes), which is `Stall` here.
     */
    method ReadToBuffer(size: int) returns (o: Outcome)
      requires Valid()
      modifies this, buffer
      ensures Valid() && State() == old(State())
      ensures o == Fill(old(Unread()), size)
      ensures o.Pass? ==> Unread() == old(Unread()) && position + size <= limit
    {
      if limit - position >= size {
        return Pass;
      }
      ghost var all := Unread();
      var read := Compact();
      assert buffer[..read] + source == all;
      while read < size
        invariant Valid() && State() == old(State())
        invariant read <= Capacity && buffer[..read] + source == all
        decreases Capacity - read, |source|
      {
        ghost var before := source;
        var r := Receive(read);
        if r == -1 {
          return Fail(EndOfStream);
        }
        if r == 0 {
          return Fail(Stall);
        }
        assert before[..r] + before[r..] == before;
        read := read + r;
      }
      position, limit := 0, read;
      assert buffer[..read] == buffer[position..limit];
      return Pass;
    }

    /** `readToBuffer(n)` and a bulk `get` of `n` bytes into a new `byte[n]`. */
    method Get(n: int) returns (r: Result<seq<byte>>)
      requires Valid()
      modifies this, buffer
      ensures Valid() && State() == old(State())
      ensures Agrees(r, Take(old(Unread()), n), Unread())
    {
      if n < 0 {
        return Err(NegativeArraySize);
      }
      var o := ReadToBuffer(n);
      if o.Fail? {
        return Err(o.error);
      }
      ghost var u := Unread();
      r := Ok(buffer[position..position + n]);
      position := position + n;
      assert u == r.value + Unread();
      assert u[..n] == r.value && u[n..] == Unread();
    }

    /** `readByte()`: one byte off the front. */
    method ReadByte() returns (r: Result<byte>)
      requires Valid()
      modifies this, buffer
      ensures Valid() && State() == old(State())
      ensures r.Err? <==> old(Unread()) == []
      ensures r.Err? ==> r.error == EndOfStream
      ensures r.Ok? ==> r.value == old(Unread())[0] && Unread() == old(Unread())[1..]
    {
      var p := Get(1);
      if p.Err? {
        return Err(p.error);
      }
      return Ok(p.value[0]);
    }

    /**
     * `readOctet(len)`: a payload that fits the buffer is read through it; a longer one is
     * copied out of the buffer without refilling it, which runs out (`BufferUnderflow`).
     */
    method ReadOctetOf(len: int) returns (r: Result<seq<byte>>)
      requires Valid()
      modifies this, buffer
      ensures Valid() && State() == old(State())
      ensures Agrees(r, TakeOctet(old(Unread()), len), Unread())
    {
      if len < 0 {
        return Err(NegativeArraySize);
      }
      if len > Capacity {
        return Err(BufferUnderflow);
      }
      r := Get(len);
    }

    // ---------------------------------------------------------------- varints

    /**
     * The loop of `readVInt`/`readVLong`: read bytes while they carry 0x80, each adding its
     * low seven bits one group higher.
     */
    method ReadVarNat() returns (r: Result<nat>)
      requires Valid()
      modifies this, buffer
      ensures Valid() && State() == old(State())
      ensures Agrees(r, VarNat(old(Unread())), Unread())
    {
      var acc: nat, weight: nat := 0, 1;
      while true
        invariant Valid() && State() == old(State())
        invariant VarNat(old(Unread())) == Shift(acc, weight, VarNat(Unread()))
        decreases |Unread()|
      {
        ghost var u := Unread();
        var b := ReadByte();
        if b.Err? {
          return Err(b.error);
        }
        if b.value < 0x80 {
          assert VarNat(u) == Ok((b.value, Unread()));
          return Ok(acc + weight * b.value);
        }
        ShiftStep(acc, weight, u, b.value % 0x80);
        acc, weight := acc + (b.value % 0x80) * weight, weight * 0x80;
      }
    }

    /** `readVInt()`: the varint narrowed to an `int`. */
    method ReadVInt() returns (r: Result<int32>)
      requires Valid()
      modifies this, buffer
      ensures Valid() && State() == old(State())
      ensures Agrees(r, SteakWire.ReadVInt(old(Unread())), Unread())
    {
      var n := ReadVarNat();
      if n.Err? {
        return Err(n.error);
      }
      return Ok(Wrap32(n.value));
    }

    /** `readVLong()`: the varint narrowed to a `long`. */
    method ReadVLong() returns (r: Result<int64>)
      requires Valid()
      modifies this, buffer
      ensures Valid() && State() == old(State())
      ensures Agrees(r, SteakWire.ReadVLong(old(Unread())), Unread())
    {
      var n := ReadVarNat();
      if n.Err? {
        return Err(n.error);
      }
      return Ok(Wrap64(n.value));
    }

    /** `readVSInt()`: sign and six bits in the first byte, then the varint loop, then the sign. */
    method ReadVSInt() returns (r: Result<int32>)
      requires Valid()
      modifies this, buffer
      ensures Valid() && State() == old(State())
      ensures Agrees(r, SteakWire.ReadVSInt(old(Unread())), Unread())
    {
      ghost var s := Unread();
      var first := ReadByte();
      if first.Err? {
        return Err(first.error);
      }
      var b := first.value;
      var more: nat := 0;
      if b >= 0x80 {
        var q := ReadVarNat();
        if q.Err? {
          return Err(q.error);
        }
        more := q.value;
      }
      var v := Wrap32(b % 0x40 + 0x40 * more);
      return Ok(if (b / 0x40) % 2 == 1 then Wrap32(-(v as int)) else v);
    }

    // ---------------------------------------------------------------- the tag families

    /** Family 0: a zero of the width `b & 3`. */
    method ParseZero(b: byte) returns (o: Outcome)
      requires Valid()
      modifies this, buffer
      ensures Valid() && Did(o, Ok((ZeroFamily(b, old(State())), old(Unread()))))
    {
      currentToken := IntegerToken(b % 4);
      byteValue, shortValue, intValue, longValue := 0, 0, 0, 0;
      return Pass;
    }

    /** Family 1: fixed-width integers, signed (cases 0–3) or unsigned (cases 4–7). */
    method ParseFull(b: byte) returns (o: Outcome)
      requires Valid() && b / 8 == 1
      modifies this, buffer
      ensures Valid() && Did(o, FullFamily(b, old(State()), old(Unread())))
    {
      currentToken := IntegerToken(b % 4);
      var code := b % 8;
      if code < 4 {
        o := ParseSigned(code);
      } else if code == 4 {
        o := ParseUnsigned8();
      } else if code == 5 {
        o := ParseUnsigned16();
      } else if code == 6 {
        o := ParseUnsigned32();
      } else {
        o := ParseUnsigned64();
      }
    }

    /** Cases 0–3: a signed big-endian integer of 1, 2, 4 or 8 bytes. */
    method ParseSigned(code: nat) returns (o: Outcome)
      requires Valid() && code < 4
      modifies this, buffer
      ensures Valid() && Did(o, Signed(code, old(State()), old(Unread())))
    {
      if code == 0 {
        var p := Get(1);
        if p.Err? { return Fail(p.error); }
        byteValue := Signed8(p.value[0]);
      } else if code == 1 {
        var p := Get(2);
        if p.Err? { return Fail(p.error); }
        shortValue := GetShort(p.value);
      } else if code == 2 {
        var p := Get(4);
        if p.Err? { return Fail(p.error); }
        intValue := GetInt(p.value);
      } else {
        var p := Get(8);
        if p.Err? { return Fail(p.error); }
        longValue := GetLong(p.value);
      }
      return Pass;
    }

    /** Case 4, `uint8`: a negative byte is promoted to the short `b & 0xff`. */
    method ParseUnsigned8() returns (o: Outcome)
      requires Valid()
      modifies this, buffer
      ensures Valid() && Did(o, Unsigned8(old(State()), old(Unread())))
    {
      var p := Get(1);
      if p.Err? { return Fail(p.error); }
      byteValue := Signed8(p.value[0]);
      if byteValue < 0 {
        currentToken := Int16;
        shortValue := byteValue as int % 0x100;
      }
      return Pass;
    }

    /** Case 5, `uint16`, which has no `break` and runs on into case 6. */
    method ParseUnsigned16() returns (o: Outcome)
      requires Valid()
      modifies this, buffer
      ensures Valid() && Did(o, Unsigned16(old(State()), old(Unread())))
    {
      var p := Get(2);
      if p.Err? { return Fail(p.error); }
      shortValue := GetShort(p.value);
      if shortValue < 0 {
        currentToken := Int32;
        intValue := shortValue as int + Two16;
      }
      o := ParseUnsigned32();
    }

    /** Case 6, `uint32`, which has no `break` either and runs on into case 7. */
    method ParseUnsigned32() returns (o: Outcome)
      requires Valid()
      modifies this, buffer
      ensures Valid() && Did(o, Unsigned32(old(State()), old(Unread())))
    {
      var p := Get(4);
      if p.Err? { return Fail(p.error); }
      intValue := GetInt(p.value);
      if intValue < 0 {
        currentToken := Int64;
        longValue := intValue as int + Two32;
      }
      o := ParseUnsigned64();
    }

    /** Case 7, `uint64`: a negative `long` is promoted to a `BigInteger` of 9 bytes. */
    method ParseUnsigned64() returns (o: Outcome)
      requires Valid()
      modifies this, buffer
      ensures Valid() && Did(o, Unsigned64(old(State()), old(Unread())))
    {
      var p := Get(8);
      if p.Err? { return Fail(p.error); }
      longValue := GetLong(p.value);
      if longValue < 0 {
        currentToken := Integer;
        objectValue := OBigInteger(longValue as int + Two64);
      }
      return Pass;
    }

    /** Family 2: varint integers, and a signed or unsigned byte widened to a short. */
    method ParseVar(b: byte) returns (o: Outcome)
      requires Valid()
      modifies this, buffer
      ensures Valid() && Did(o, VarFamily(b, old(State()), old(Unread())))
    {
      var code := b % 8;
      if code <= 2 {
        var i := ReadVInt();
        if i.Err? { return Fail(i.error); }
        var v := i.value;
        if code == 1 {
          v := Wrap32(-(v as int));
        }
        currentToken, intValue := Int32, v;
      } else if code == 3 {
        var s := ReadByte();
        if s.Err? { return Fail(s.error); }
        currentToken, shortValue := Int16, Signed8(s.value);
      } else if code <= 6 {
        var l := ReadVLong();
        if l.Err? { return Fail(l.error); }
        var v := l.value;
        if code == 5 {
          v := Wrap64(-(v as int));
        }
        currentToken, longValue := Int64, v;
      } else {
        var s := ReadByte();
        if s.Err? { return Fail(s.error); }
        currentToken, shortValue := Int16, s.value;
      }
      return Pass;
    }

    /** Family 3: floating-point zeros and values, the booleans, null and end of structure. */
    method ParseSingleton(b: byte) returns (o: Outcome)
      requires Valid()
      modifies this, buffer
      ensures Valid() && Did(o, SingletonFamily(b, old(State()), old(Unread())))
    {
      var code := b % 8;
      if code == 0 {
        currentToken, floatBits := Float32, 0;
      } else if code == 1 {
        currentToken := Float32;
        var p := Get(4);
        if p.Err? { return Fail(p.error); }
        floatBits := FromBE(p.value);
      } else if code == 2 {
        currentToken, doubleBits := Float64, 0;
      } else if code == 3 {
        currentToken := Float64;
        var p := Get(8);
        if p.Err? { return Fail(p.error); }
        doubleBits := FromBE(p.value);
      } else if code == 4 {
        currentToken := False;
      } else if code == 5 {
        currentToken := True;
      } else if code == 6 {
        currentToken := Null;
      } else {
        currentToken := EndOfStructure;
      }
      return Pass;
    }

    /** Family 4: date-time, the two `char` widths, the code point and the decimal zero. */
    method ParseTimeChar(b: byte) returns (o: Outcome)
      requires Valid()
      modifies this, buffer
      ensures Valid() && Did(o, TimeCharFamily(b, old(State()), old(Unread())))
    {
      var code := b % 8;
      if code == 0 || code == 1 || code == 3 {
        return Fail(Unsupported);
      } else if code == 2 {
        o := ParseDateTime();
        return;
      } else if code == 4 {
        currentToken := Character;
        var p := Get(1);
        if p.Err? { return Fail(p.error); }
        charValue := p.value[0];
      } else if code == 5 {
        currentToken := Character;
        var p := Get(2);
        if p.Err? { return Fail(p.error); }
        charValue := GetChar(p.value);
      } else if code == 6 {
        currentToken := Character;
        var i := ReadVInt();
        if i.Err? { return Fail(i.error); }
        intValue := i.value;
      } else {
        currentToken, objectValue := Decimal, ODecimal(0, 0);
      }
      return Pass;
    }

    /** The body of a date-time: signed year, day of year, second of day, nanoseconds. */
    method ParseDateTime() returns (o: Outcome)
      requires Valid()
      modifies this, buffer
      ensures Valid() && Did(o, DateTimeBody(old(State()), old(Unread())))
    {
      currentToken := DateTime;
      var year := ReadVSInt();
      if year.Err? { return Fail(year.error); }
      var dayOfYear := ReadVInt();
      if dayOfYear.Err? { return Fail(dayOfYear.error); }
      var secondOfDay := ReadVInt();
      if secondOfDay.Err? { return Fail(secondOfDay.error); }
      var nanos := ReadVLong();
      if nanos.Err? { return Fail(nanos.error); }
      objectValue := OCalendar(year.value, dayOfYear.value, secondOfDay.value,
                               Wrap32(JavaDiv(nanos.value, 1_000_000)));
      return Pass;
    }

    /** Family 5: the token of a typed array, then its varint element count. */
    method ParsePrimitiveArray(b: byte) returns (o: Outcome)
      requires Valid()
      modifies this, buffer
      ensures Valid() && Did(o, PrimitiveArrayFamily(b, old(State()), old(Unread())))
    {
      var code := b % 8;
      if code == 7 {
        return Fail(UnusedTag);
      }
      currentToken := PrimitiveArrayToken(PrimitiveKindOfCode(code));
      var n := ReadVInt();
      if n.Err? { return Fail(n.error); }
      elementCount := n.value;
      return Pass;
    }

    /** The length and bytes of a decimal's unscaled value, at the given scale. */
    method ParseDecimalBody(scale: int32) returns (o: Outcome)
      requires Valid()
      modifies this, buffer
      ensures Valid() && Did(o, DecimalBody(scale, old(State()), old(Unread())))
    {
      var n := ReadVInt();
      if n.Err? { return Fail(n.error); }
      var bi := Get(n.value);
      if bi.Err? { return Fail(bi.error); }
      if n.value == 0 {
        return Fail(ZeroLengthBigInteger);
      }
      currentToken, objectValue := Decimal, ODecimal(TwosValue(bi.value), scale);
      return Pass;
    }

    /** Families 6 and 7: the scale in the tag or in a varint after it, then the body. */
    method ParseDecimal(b: byte) returns (o: Outcome)
      requires Valid() && b / 8 >= 6
      modifies this, buffer
      ensures Valid()
      ensures Did(o, if b / 8 == 6 then PositiveScaleFamily(b, old(State()), old(Unread()))
                     else NegativeScaleFamily(b, old(State()), old(Unread())))
    {
      var scale: int32 := b % 8;
      if b / 8 == 6 {
        if scale == 7 {
          var s := ReadVInt();
          if s.Err? { return Fail(s.error); }
          scale := s.value;
        }
      } else {
        if scale == 0 {
          var s := ReadVInt();
          if s.Err? { return Fail(s.error); }
          scale := s.value;
        }
        scale := Wrap32(-(scale as int));
      }
      o := ParseDecimalBody(scale);
    }

    // ---------------------------------------------------------------- next()

    /** Tags 0x40–0x7f: the length in the low nibble or a varint, then the kind's body. */
    method ParseVariableLength(b: byte) returns (o: Outcome)
      requires Valid() && 0x40 <= b < 0x80
      modifies this, buffer
      ensures Valid() && Did(o, VariableLength(b, old(State()), old(Unread())))
    {
      var len := ReadNibbleLength(b);
      if len.Err? { return Fail(len.error); }
      o := ParseVariableBody(b, len.value);
    }

    /** The low nibble of the tag, 15 meaning a varint follows, whose 0 means -1. */
    method ReadNibbleLength(b: byte) returns (r: Result<int32>)
      requires Valid()
      modifies this, buffer
      ensures Valid() && State() == old(State())
      ensures Agrees(r, NibbleLength(b, old(Unread())), Unread())
    {
      if b % 16 != 15 {
        return Ok(b % 16);
      }
      var q := ReadVInt();
      if q.Err? { return Err(q.error); }
      return Ok(if q.value == 0 then -1 else q.value);
    }

    method ParseVariableBody(b: byte, len: int32) returns (o: Outcome)
      requires Valid()
      modifies this, buffer
      ensures Valid() && Did(o, VariableBody(b, len, old(State()), old(Unread())))
    {
      var kind := (b / 16) % 4;
      if kind == 0 {
        currentToken := Integer;
        if len == 0 {
          objectValue := OBigInteger(0);
        } else {
          var p := Get(len);
          if p.Err? { return Fail(p.error); }
          objectValue := OBigInteger(TwosValue(p.value));
        }
      } else if kind == 1 {
        currentToken := CustomType;
        var p := Get(len);
        if p.Err? { return Fail(p.error); }
        objectValue := OText(p.value);
      } else if kind == 2 {
        currentToken, elementCount := Array, len;
      } else {
        currentToken, elementCount := Object, len;
      }
      return Pass;
    }

    /** Tags 0x80–0xff: an octet or string of known length, or the start of a chunked one. */
    method ParseOctetOrString(b: byte) returns (o: Outcome)
      requires Valid() && b >= 0x80
      modifies this, buffer
      ensures Valid() && Did(o, OctetOrString(b, old(State()), old(Unread())))
    {
      currentToken := if b < 0xc0 then Octet else String;
      var len: int32 := b % 64;
      if len == 63 {
        var q := ReadVInt();
        if q.Err? { return Fail(q.error); }
        len := q.value;
        if len == 0 {
          inStream := true;
          return Pass;
        }
      }
      o := ParsePayload(len);
    }

    /** A payload of known length: `inStream` is cleared and the bytes become the value. */
    method ParsePayload(len: int32) returns (o: Outcome)
      requires Valid()
      modifies this, buffer
      ensures Valid() && Did(o, Payload(old(State()), len, old(Unread())))
    {
      ghost var g, u := State(), Unread();
      inStream := false;
      var octet := ReadOctetOf(len);
      PayloadOf(g, len, u);
      if octet.Err? { return Fail(octet.error); }
      objectValue := if currentToken == String then OText(octet.value) else OOctet(octet.value);
      assert State() == g.(inStream := false, objectValue := objectValue);
      return Pass;
    }

    /** `next()`: one tag byte, then the family it selects; Java's `true` is `Pass`. */
    method Next() returns (o: Outcome)
      requires Valid()
      modifies this, buffer
      ensures Valid() && Did(o, SteakDecoding.Next(old(State()), old(Unread())))
    {
      var first := ReadByte();
      if first.Err? { return Fail(first.error); }
      var b := first.value;
      if b < 0x40 {
        var family := b / 8;
        if family == 0 {
          o := ParseZero(b);
        } else if family == 1 {
          o := ParseFull(b);
        } else if family == 2 {
          o := ParseVar(b);
        } else if family == 3 {
          o := ParseSingleton(b);
        } else if family == 4 {
          o := ParseTimeChar(b);
        } else if family == 5 {
          o := ParsePrimitiveArray(b);
        } else {
          o := ParseDecimal(b);
        }
      } else if b < 0x80 {
        o := ParseVariableLength(b);
      } else {
        o := ParseOctetOrString(b);
      }
    }

    // ---------------------------------------------------------------- payload accessors

    /**
     * The loop of `readOctet()` on a streamed payload: read `(length, bytes)` chunks until a
     * length that is not positive, collecting the bytes.
     */
    method ReadChunks() returns (r: Result<seq<byte>>)
      requires Valid()
      modifies this, buffer
      ensures Valid() && State() == old(State())
      ensures Agrees(r, SteakDecoding.ReadChunks(old(Unread())), Unread())
    {
      var out: seq<byte> := [];
      var len := ReadVInt();
      if len.Err? { return Err(len.error); }
      assert SteakDecoding.ReadChunks(old(Unread())) == ChunksFrom(len.value, Unread());
      AfterNothing(ChunksFrom(len.value, Unread()));
      while len.value > 0
        invariant Valid() && State() == old(State()) && len.Ok?
        invariant SteakDecoding.ReadChunks(old(Unread())) == After(out, ChunksFrom(len.value, Unread()))
        decreases |Unread()|
      {
        ghost var u := Unread();
        var octet := ReadOctetOf(len.value);
        if octet.Err? { return Err(octet.error); }
        ghost var v := Unread();
        len := ReadVInt();
        if len.Err? { return Err(len.error); }
        AfterAfter(out, octet.value, ChunksFrom(len.value, Unread()));
        out := out + octet.value;
      }
      assert out + [] == out;
      return Ok(out);
    }

    /** `readOctet()`: the chunks of a streamed payload, else the current value as `byte[]`. */
    method ReadOctet() returns (r: Result<Option<seq<byte>>>)
      requires Valid()
      modifies this, buffer
      ensures Valid()
      ensures Finished(r, SteakDecoding.ReadOctet(old(State()), old(Unread())))
    {
      if inStream {
        var c := ReadChunks();
        if c.Err? { return Err(c.error); }
        inStream := false;
        return Ok(Some(c.value));
      }
      match objectValue
      case ONull => return Ok(None);
      case OOctet(b) => return Ok(Some(b));
      case _ => return Err(ClassCast);
    }

    /** `readString()`: the same for a string payload; the bytes stand for its UTF-8 form. */
    method ReadString() returns (r: Result<Option<seq<byte>>>)
      requires Valid()
      modifies this, buffer
      ensures Valid()
      ensures Finished(r, SteakDecoding.ReadString(old(State()), old(Unread())))
    {
      if inStream {
        r := ReadOctet();
        return;
      }
      match objectValue
      case ONull => return Ok(None);
      case OText(b) => return Ok(Some(b));
      case _ => return Err(ClassCast);
    }

    /** An accessor returned `r` where the function gave `spec`, and left the state it gives. */
    ghost predicate Finished<T>(r: Result<T>, spec: Result<(T, Fields, seq<byte>)>)
      reads this, buffer
      requires Valid()
    {
      && (r.Ok? <==> spec.Ok?)
      && (r.Err? ==> spec.Err? && r.error == spec.error)
      && (r.Ok? ==> r.value == spec.value.0 && State() == spec.value.1 && Unread() == spec.value.2)
    }

    /** `getBoolean()`: whether the current token is `True`. */
    function GetBoolean(): (r: bool)
      reads this
      ensures r <==> State().token == True
    {
      currentToken == True
    }

    // ---------------------------------------------------------------- the header

    /**
     * The constructor of the Java class: a new parser on `input` reads the five header bytes
     * and fails unless they are the Steak header.
     */
    static method Open(input: seq<byte>) returns (p: SteakParser, o: Outcome)
      ensures fresh(p) && fresh(p.buffer) && p.Valid() && p.State() == Initial
      ensures o.Pass? <==> ReadHeader(input).Ok?
      ensures o.Pass? ==> p.Unread() == ReadHeader(input).value
    {
      p := new SteakParser(input);
      var h := p.Get(5);
      if h.Err? {
        return p, Fail(h.error);
      }
      if h.value != Header {
        return p, Fail(HeaderMismatch);
      }
      return p, Pass;
    }
  }

  function Min(a: int, b: int): (m: int)
    ensures m <= a && m <= b && (m == a || m == b)
  {
    if a < b then a else b
  }
}
