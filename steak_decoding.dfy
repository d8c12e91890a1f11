/**
 * What one step of the Steak pull parser does to its fields and to the unread input, as
 * a function: `Next(fields, unread)` is `SteakParser.next()` with the eight tag families of
 * `PARSER_FUNCS`, the variable-length family and the octet/string family. The parser
 * class in `SteakParsing` is proved to behave as this function says.
 */
module SteakDecoding {
  import opened JavaTypes
  import opened TbonToken
  import opened SteakWire

  /** The values `objectValue` can hold. */
  datatype Obj =
    | ONull
    | OBigInteger(integer: int)
    | ODecimal(unscaled: int, scale: int32)
    | OText(utf8: seq<byte>)     // a String (payload or custom type name), as its UTF-8 bytes
    | OOctet(octets: seq<byte>)  // a byte[]
    | OCalendar(year: int32, dayOfYear: int32, secondOfDay: int32, millisecond: int32)

  /** The parser's state fields; floating-point values are their raw IEEE 754 bits. */
  datatype Fields = Fields(
    token: Token,
    elementCount: int32,
    inStream: bool,
    byteValue: int8,
    shortValue: int16,
    intValue: int32,
    longValue: int64,
    floatBits: nat,
    doubleBits: nat,
    charValue: char16,
    objectValue: Obj)

  /** The fields of a parser before its first `next()`. */
  const Initial: Fields :=
    Fields(NotAvailable, -1, false, 0, 0, 0, 0, 0, 0, 0, ONull)

  // ---------------------------------------------------------------- reading the buffer

  /**
   * `readToBuffer(size)` with `s` unread (buffered or still in the channel): it returns when
   * `size` bytes can be buffered, throws at end of stream, and never returns when more than
   * the 8192-byte buffer is asked for while the channel still has data.
   */
  function Fill(s: seq<byte>, size: int): (o: Outcome)
    ensures o.Pass? <==> size <= |s| && size <= Capacity
  {
    if size <= |s| && size <= Capacity then Pass
    else if size > Capacity && |s| > Capacity then Fail(Stall)
    else Fail(EndOfStream)
  }

  /** `new byte[n]` with `readToBuffer(n)` and a bulk `get`, in either order. */
  function Take(s: seq<byte>, n: int): (r: Result<(seq<byte>, seq<byte>)>)
    ensures r.Ok? <==> 0 <= n <= |s| && n <= Capacity
    ensures r.Ok? ==> r.value.0 == s[..n] && r.value.1 == s[n..]
    ensures n < 0 ==> r == Err(NegativeArraySize)
  {
    if n < 0 then Err(NegativeArraySize)
    else match Fill(s, n)
      case Fail(e) => Err(e)
      case Pass => Ok((s[..n], s[n..]))
  }

  /**
   * `readOctet(len)`: allocate, then read through the buffer when the payload fits in it;
   * a longer payload is copied out of the buffer without refilling it, which runs out.
   */
  function TakeOctet(s: seq<byte>, n: int): (r: Result<(seq<byte>, seq<byte>)>)
    ensures r.Ok? <==> 0 <= n <= |s| && n <= Capacity
    ensures r.Ok? ==> r.value.0 == s[..n] && r.value.1 == s[n..]
    ensures n > Capacity ==> r == Err(BufferUnderflow)
  {
    if n < 0 then Err(NegativeArraySize)
    else if n > Capacity then Err(BufferUnderflow)
    else Take(s, n)
  }

  function GetShort(s: seq<byte>): int16
    requires |s| == 2
  {
    assert Pow256(2) == Two16;
    assert FromBE(s) < Pow256(2);
    GetBE(s)
  }

  function GetInt(s: seq<byte>): int32
    requires |s| == 4
  {
    assert Pow256(4) == Two32;
    assert FromBE(s) < Pow256(4);
    GetBE(s)
  }

  function GetLong(s: seq<byte>): int64
    requires |s| == 8
  {
    assert Pow256(8) == Two64;
    assert FromBE(s) < Pow256(8);
    GetBE(s)
  }

  function GetChar(s: seq<byte>): char16
    requires |s| == 2
  {
    assert Pow256(2) == Two16;
    FromBE(s)
  }

  // ---------------------------------------------------------------- the tag families

  function IntegerToken(i: nat): Token
    requires i < 4
  {
    [Int8, Int16, Int32, Int64][i]
  }

  /** Family 0 (0x00–0x07): a zero of the width `b & 3`; all four integer fields become 0. */
  function ZeroFamily(b: byte, f: Fields): (g: Fields)
  {
    f.(token := IntegerToken(b % 4), byteValue := 0, shortValue := 0, intValue := 0, longValue := 0)
  }

  /**
   * Family 1 (0x08–0x0f): fixed-width big-endian integers. Cases 4–7 are the unsigned
   * widths, each promoted to the next wider token when its sign bit is set; cases 5 and 6
   * have no `break` and run on into the wider cases, reading their bytes as well.
   */
  function FullFamily(b: byte, f: Fields, t: seq<byte>): (r: Result<(Fields, seq<byte>)>)
    requires b / 8 == 1
  {
    var g := f.(token := IntegerToken(b % 4));
    var code := b % 8;
    if code < 4 then Signed(code, g, t)
    else if code == 4 then Unsigned8(g, t)
    else if code == 5 then Unsigned16(g, t)
    else if code == 6 then Unsigned32(g, t)
    else Unsigned64(g, t)
  }

  /** Cases 0–3: a signed big-endian integer of 1, 2, 4 or 8 bytes. */
  function Signed(code: nat, g: Fields, t: seq<byte>): (r: Result<(Fields, seq<byte>)>)
    requires code < 4
  {
    if code == 0 then
      var p :- Take(t, 1);
      Ok((g.(byteValue := Signed8(p.0[0])), p.1))
    else if code == 1 then
      var p :- Take(t, 2);
      Ok((g.(shortValue := GetShort(p.0)), p.1))
    else if code == 2 then
      var p :- Take(t, 4);
      Ok((g.(intValue := GetInt(p.0)), p.1))
    else
      var p :- Take(t, 8);
      Ok((g.(longValue := GetLong(p.0)), p.1))
  }

  /** Case 4, `uint8`: a byte with its sign bit set is promoted to a short. */
  function Unsigned8(g: Fields, t: seq<byte>): (r: Result<(Fields, seq<byte>)>)
  {
    var p :- Take(t, 1);
    var x := p.0[0];
    var h := g.(byteValue := Signed8(x));
    Ok((if x >= 0x80 then h.(token := Int16, shortValue := x) else h, p.1))
  }

  function Unsigned16(g: Fields, t: seq<byte>): (r: Result<(Fields, seq<byte>)>)
  {
    var p :- Take(t, 2);
    var v := GetShort(p.0);
    var h := g.(shortValue := v);
    Unsigned32(if v < 0 then h.(token := Int32, intValue := v + Two16) else h, p.1)
  }

  function Unsigned32(g: Fields, t: seq<byte>): (r: Result<(Fields, seq<byte>)>)
  {
    var p :- Take(t, 4);
    var v := GetInt(p.0);
    var h := g.(intValue := v);
    Unsigned64(if v < 0 then h.(token := Int64, longValue := v + Two32) else h, p.1)
  }

  function Unsigned64(g: Fields, t: seq<byte>): (r: Result<(Fields, seq<byte>)>)
  {
    var p :- Take(t, 8);
    var v := GetLong(p.0);
    var h := g.(longValue := v);
    Ok((if v < 0 then h.(token := Integer, objectValue := OBigInteger(v + Two64)) else h, p.1))
  }

  /**
   * Family 2 (0x10–0x17): varint integers. Cases 0–2 read an `int` (negated for 1), 4–6 a
   * `long` (negated for 5), 3 a signed and 7 an unsigned byte into a short.
   */
  function VarFamily(b: byte, f: Fields, t: seq<byte>): (r: Result<(Fields, seq<byte>)>)
  {
    var code := b % 8;
    if code <= 2 then
      var p :- ReadVInt(t);
      Ok((f.(token := Int32, intValue := if code == 1 then Wrap32(-(p.0 as int)) else p.0), p.1))
    else if code == 3 then
      var p :- Take(t, 1);
      Ok((f.(token := Int16, shortValue := Signed8(p.0[0])), p.1))
    else if code <= 6 then
      var p :- ReadVLong(t);
      Ok((f.(token := Int64, longValue := if code == 5 then Wrap64(-(p.0 as int)) else p.0), p.1))
    else
      var p :- Take(t, 1);
      Ok((f.(token := Int16, shortValue := p.0[0]), p.1))
  }

  /** Family 3 (0x18–0x1f): float and double zeros and values, false, true, null, end. */
  function SingletonFamily(b: byte, f: Fields, t: seq<byte>): (r: Result<(Fields, seq<byte>)>)
  {
    var code := b % 8;
    if code == 0 then Ok((f.(token := Float32, floatBits := 0), t))
    else if code == 1 then
      var p :- Take(t, 4);
      Ok((f.(token := Float32, floatBits := FromBE(p.0)), p.1))
    else if code == 2 then Ok((f.(token := Float64, doubleBits := 0), t))
    else if code == 3 then
      var p :- Take(t, 8);
      Ok((f.(token := Float64, doubleBits := FromBE(p.0)), p.1))
    else if code == 4 then Ok((f.(token := False), t))
    else if code == 5 then Ok((f.(token := True), t))
    else if code == 6 then Ok((f.(token := Null), t))
    else Ok((f.(token := EndOfStructure), t))
  }

  /**
   * Family 4 (0x20–0x27): time, date and zoned date-time are unsupported; date-time reads
   * the signed year, day of year, second of day and nanoseconds; 0x24 and 0x25 are a
   * `char` of one or two bytes; 0x26, a code point, stores its varint in `intValue`;
   * 0x27 is the decimal zero.
   */
  function TimeCharFamily(b: byte, f: Fields, t: seq<byte>): (r: Result<(Fields, seq<byte>)>)
  {
    var code := b % 8;
    if code == 0 || code == 1 || code == 3 then Err(Unsupported)
    else if code == 2 then DateTimeBody(f, t)
    else if code == 4 then
      var p :- Take(t, 1);
      Ok((f.(token := Character, charValue := p.0[0]), p.1))
    else if code == 5 then
      var p :- Take(t, 2);
      Ok((f.(token := Character, charValue := GetChar(p.0)), p.1))
    else if code == 6 then
      var p :- ReadVInt(t);
      Ok((f.(token := Character, intValue := p.0), p.1))
    else Ok((f.(token := Decimal, objectValue := ODecimal(0, 0)), t))
  }

  /**
   * The body of tag 0x22: the signed year, the day of year, the second of day and the
   * nanoseconds, of which the millisecond is the quotient by 1000000, cast to `int`.
   */
  function DateTimeBody(f: Fields, t: seq<byte>): (r: Result<(Fields, seq<byte>)>)
  {
    var y :- ReadVSInt(t);
    var d :- ReadVInt(y.1);
    var s :- ReadVInt(d.1);
    var n :- ReadVLong(s.1);
    var ms := Wrap32(JavaDiv(n.0, 1_000_000));
    Ok((f.(token := DateTime, objectValue := OCalendar(y.0, d.0, s.0, ms)), n.1))
  }

  /** The element kind of tags 0x28–0x2e, in that order. */
  function PrimitiveKindOfCode(code: nat): PrimKind
    requires code < 7
  {
    [BooleanKind, ShortKind, IntKind, LongKind, FloatKind, DoubleKind, CharKind][code]
  }

  /** Family 5 (0x28–0x2f): a typed array and its varint element count; 0x2f is unused. */
  function PrimitiveArrayFamily(b: byte, f: Fields, t: seq<byte>): (r: Result<(Fields, seq<byte>)>)
  {
    var code := b % 8;
    if code == 7 then Err(UnusedTag)
    else
      var p :- ReadVInt(t);
      Ok((f.(token := PrimitiveArrayToken(PrimitiveKindOfCode(code)), elementCount := p.0), p.1))
  }

  /** The varint count and the two's-complement bytes of a decimal's unscaled value. */
  function DecimalBody(scale: int32, f: Fields, t: seq<byte>): (r: Result<(Fields, seq<byte>)>)
  {
    var n :- ReadVInt(t);
    var p :- Take(n.1, n.0);
    if n.0 == 0 then Err(ZeroLengthBigInteger)
    else Ok((f.(token := Decimal, objectValue := ODecimal(TwosValue(p.0), scale)), p.1))
  }

  /** Family 6 (0x30–0x37): scale `b & 7`, where 7 means a varint scale follows. */
  function PositiveScaleFamily(b: byte, f: Fields, t: seq<byte>): (r: Result<(Fields, seq<byte>)>)
  {
    if b % 8 == 7 then
      var s :- ReadVInt(t);
      DecimalBody(s.0, f, s.1)
    else DecimalBody(b % 8, f, t)
  }

  /** Family 7 (0x38–0x3f): scale `-(b & 7)`, where 0 means minus a varint scale. */
  function NegativeScaleFamily(b: byte, f: Fields, t: seq<byte>): (r: Result<(Fields, seq<byte>)>)
  {
    if b % 8 == 0 then
      var s :- ReadVInt(t);
      DecimalBody(Wrap32(-(s.0 as int)), f, s.1)
    else DecimalBody(-(b % 8), f, t)
  }

  // ---------------------------------------------------------------- next()

  /** The length of a variable-length tag: its low nibble, 15 meaning a varint (0 read as -1). */
  function NibbleLength(b: byte, t: seq<byte>): (r: Result<(int32, seq<byte>)>)
  {
    if b % 16 == 15 then
      var q :- ReadVInt(t);
      Ok((if q.0 == 0 then -1 else q.0, q.1))
    else Ok((b % 16, t))
  }

  /** Tags 0x40–0x7f: BigInteger, custom type name, array and object with their length. */
  function VariableLength(b: byte, f: Fields, t: seq<byte>): (r: Result<(Fields, seq<byte>)>)
    requires 0x40 <= b < 0x80
  {
    var lp :- NibbleLength(b, t);
    VariableBody(b, lp.0, f, lp.1)
  }

  /** What follows the length of a variable-length tag, by the kind in bits 4–5. */
  function VariableBody(b: byte, len: int32, f: Fields, u: seq<byte>): (r: Result<(Fields, seq<byte>)>)
  {
    var kind := (b / 16) % 4;
    if kind == 0 then
      if len == 0 then Ok((f.(token := Integer, objectValue := OBigInteger(0)), u))
      else
        var p :- Take(u, len);
        Ok((f.(token := Integer, objectValue := OBigInteger(TwosValue(p.0))), p.1))
    else if kind == 1 then
      var p :- Take(u, len);
      Ok((f.(token := CustomType, objectValue := OText(p.0)), p.1))
    else if kind == 2 then Ok((f.(token := Array, elementCount := len), u))
    else Ok((f.(token := Object, elementCount := len), u))
  }

  /**
   * Tags 0x80–0xff: an octet (0x40 clear) or a string (0x40 set) whose length is the low six
   * bits, 63 meaning a varint; a varint of 0 starts a chunked payload, left in the stream.
   */
  function OctetOrString(b: byte, f: Fields, t: seq<byte>): (r: Result<(Fields, seq<byte>)>)
    requires b >= 0x80
  {
    var g := f.(token := if b < 0xc0 then Octet else String);
    if b % 64 == 63 then
      var q :- ReadVInt(t);
      if q.0 == 0 then Ok((g.(inStream := true), q.1))
      else Payload(g, q.0, q.1)
    else Payload(g, b % 64, t)
  }

  function Payload(g: Fields, len: int32, u: seq<byte>): (r: Result<(Fields, seq<byte>)>)
  {
    var p :- TakeOctet(u, len);
    var value := if g.token == String then OText(p.0) else OOctet(p.0);
    Ok((g.(inStream := false, objectValue := value), p.1))
  }

  /** The compact family of a tag below 0x40 is `(b & 0x38) >> 3`. */
  function CompactFamily(b: byte, f: Fields, t: seq<byte>): (r: Result<(Fields, seq<byte>)>)
    requires b < 0x40
  {
    var family := b / 8;
    if family == 0 then Ok((ZeroFamily(b, f), t))
    else if family == 1 then FullFamily(b, f, t)
    else if family == 2 then VarFamily(b, f, t)
    else if family == 3 then SingletonFamily(b, f, t)
    else if family == 4 then TimeCharFamily(b, f, t)
    else if family == 5 then PrimitiveArrayFamily(b, f, t)
    else if family == 6 then PositiveScaleFamily(b, f, t)
    else NegativeScaleFamily(b, f, t)
  }

  /** `next()`: read one tag byte and dispatch on its two top bits. */
  function Next(f: Fields, s: seq<byte>): (r: Result<(Fields, seq<byte>)>)
    ensures |s| == 0 ==> r == Err(EndOfStream)
  {
    if |s| == 0 then Err(EndOfStream)
    else
      var b := s[0];
      var t := s[1..];
      if b < 0x40 then CompactFamily(b, f, t)
      else if b < 0x80 then VariableLength(b, f, t)
      else OctetOrString(b, f, t)
  }

  /** The constructor: exactly the five header bytes are read, and they must match. */
  function ReadHeader(s: seq<byte>): (r: Result<seq<byte>>)
    ensures r.Ok? <==> |s| >= 5 && s[..5] == Header
    ensures r.Ok? ==> r.value == s[5..]
  {
    var p :- Take(s, 5);
    if p.0 == Header then Ok(p.1) else Err(HeaderMismatch)
  }

  // ---------------------------------------------------------------- payload accessors

  /**
   * The chunks of a streamed payload: `(varint len, len bytes)` pairs, ended by the first
   * length that is not positive.
   */
  function ReadChunks(s: seq<byte>): (r: Result<(seq<byte>, seq<byte>)>)
    ensures r.Ok? ==> |r.value.0| + |r.value.1| < |s|
    decreases |s|
  {
    var q :- ReadVInt(s);
    if q.0 > 0 then
      var p :- TakeOctet(q.1, q.0);
      var more :- ReadChunks(p.1);
      Ok((p.0 + more.0, more.1))
    else Ok(([], q.1))
  }

  /**
   * `readOctet()`: the chunks of a streamed payload (clearing `inStream`), else the current
   * `byte[]` value; `None` is Java's `null`.
   */
  function ReadOctet(f: Fields, s: seq<byte>): Result<(Option<seq<byte>>, Fields, seq<byte>)>
  {
    if f.inStream then
      var c :- ReadChunks(s);
      Ok((Some(c.0), f.(inStream := false), c.1))
    else match f.objectValue
      case ONull => Ok((None, f, s))
      case OOctet(b) => Ok((Some(b), f, s))
      case _ => Err(ClassCast)
  }

  /** `readString()`: the chunks of a streamed payload, else the current `String` value. */
  function ReadString(f: Fields, s: seq<byte>): Result<(Option<seq<byte>>, Fields, seq<byte>)>
  {
    if f.inStream then
      var c :- ReadChunks(s);
      Ok((Some(c.0), f.(inStream := false), c.1))
    else match f.objectValue
      case ONull => Ok((None, f, s))
      case OText(b) => Ok((Some(b), f, s))
      case _ => Err(ClassCast)
  }
}
