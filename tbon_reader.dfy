/**
 * `TBONReader`: turns the tokens of a parser into Java values. Scalars come straight from the
 * parser's accessors; arrays and objects are read by recursive descent until their
 * `EndOfStructure`; typed arrays are filled by their element count; custom types go to a
 * registered reader, or else to the class of that name filled from the object that follows.
 *
 * The parser is abstracted as a list of tokens: the current token and those still to come,
 * each with the fields the parser holds once it has read that token. `next()` moves to the
 * following token and returns false when there is none.
 */
module TbonReading {
  import opened JavaTypes
  import opened TbonToken
  import opened SteakDecoding
  import opened LinkedMaps
  import opened TypeHandlers

  /**
   * One token as the parser reports it: its fields, and, for the start of a chunked payload
   * (`inStream`), the bytes its chunks concatenate to.
   */
  datatype Tok = Tok(fields: Fields, streamed: seq<byte>)

  /** The parser's position: the current token and the tokens still to come. */
  datatype Cursor = Cursor(current: Tok, rest: seq<Tok>)

  /** One element of a typed (primitive) array; floating-point elements are their raw bits. */
  datatype Prim =
    | PBoolean(z: bool)
    | PShort(s: int16)
    | PInt(i: int32)
    | PLong(l: int64)
    | PFloat(fbits: nat)
    | PDouble(dbits: nat)
    | PChar(c: char16)

  /** The Java values the reader returns; `VNull` is `null`. */
  datatype Value =
    | VNull
    | VBoolean(z: bool)
    | VByte(b: int8)
    | VShort(s: int16)
    | VInt(i: int32)
    | VLong(l: int64)
    | VInteger(integer: int)
    | VFloat(fbits: nat)
    | VDouble(dbits: nat)
    | VDecimal(unscaled: int, scale: int32)
    | VDate(year: int32, dayOfYear: int32, secondOfDay: int32, millisecond: int32)
    | VChar(c: char16)
    | VOctet(octets: seq<byte>)                       // a byte[] read in memory
    | VSpooled(spooled: seq<byte>)                    // a temporary file holding the octets
    | VString(utf8: seq<byte>)
    | VPrimitiveArray(kind: PrimKind, elements: seq<Prim>)
    | VList(items: seq<Value>)                        // an ArrayList
    | VMap(entries: LinkedMap<Option<seq<byte>>, Value>)  // a LinkedHashMap with String keys
    | VHandled(reader: Reader, typeName: Option<seq<byte>>) // what a registered TypeReader returns
    | VPojo(className: seq<byte>, properties: LinkedMap<Option<seq<byte>>, Value>)

  /**
   * What the reader was built with: the registered readers and the explicit name-to-reader
   * map (each may be absent, `null` in Java), and the names of the classes that can be
   * loaded and built with a public no-argument constructor.
   */
  datatype Handlers = Handlers(
    typeReaders: Option<seq<Reader>>,
    explicitReaderMap: Option<map<seq<byte>, Reader>>,
    loadable: set<seq<byte>>)

  /** The octets of a payload are read in memory below this count, and spooled otherwise. */
  const InMemoryLimit: int := 32 * 1024

  /** `parser.next()`: move to the following token, or stay when there is none. */
  function Step(c: Cursor): (d: Cursor)
    ensures |c.rest| > 0 ==> |d.rest| == |c.rest| - 1
    ensures |c.rest| == 0 ==> d == c
  {
    if |c.rest| == 0 then c else Cursor(c.rest[0], c.rest[1..])
  }

  /** The tokens whose value is one accessor of the parser. */
  predicate IsScalar(t: Token)
  {
    t.Null? || t.False? || t.True? || t.Int8? || t.Int16? || t.Int32? || t.Int64? || t.Integer?
    || t.Float32? || t.Float64? || t.Decimal? || t.Time? || t.Date? || t.DateTime?
    || t.DateTimeTZ? || t.Character?
  }

  /**
   * The value of a scalar token: the accessor the token names. The object accessors cast
   * `objectValue`, so an object of another type is a `ClassCastException`; `getDate()` also
   * calls a method on the calendar, so a `null` one is a `NullPointerException`.
   */
  function ScalarOf(f: Fields): (r: Result<Value>)
    requires IsScalar(f.token)
    ensures f.token.Null? ==> r == Ok(VNull)
    ensures f.token.False? || f.token.True? ==> r == Ok(VBoolean(f.token.True?))
    ensures f.token.Int8? ==> r == Ok(VByte(f.byteValue))
    ensures f.token.Int16? ==> r == Ok(VShort(f.shortValue))
    ensures f.token.Int32? ==> r == Ok(VInt(f.intValue))
    ensures f.token.Int64? ==> r == Ok(VLong(f.longValue))
    ensures f.token.Character? ==> r == Ok(VChar(f.charValue))
    ensures r.Err? ==> r.error == ClassCast || r.error == NullPointer
  {
    var o := f.objectValue;
    match f.token
    case Null => Ok(VNull)
    case False => Ok(VBoolean(false))
    case True => Ok(VBoolean(true))
    case Int8 => Ok(VByte(f.byteValue))
    case Int16 => Ok(VShort(f.shortValue))
    case Int32 => Ok(VInt(f.intValue))
    case Int64 => Ok(VLong(f.longValue))
    case Integer =>
      if o.OBigInteger? then Ok(VInteger(o.integer)) else if o.ONull? then Ok(VNull) else Err(ClassCast)
    case Float32 => Ok(VFloat(f.floatBits))
    case Float64 => Ok(VDouble(f.doubleBits))
    case Decimal =>
      if o.ODecimal? then Ok(VDecimal(o.unscaled, o.scale)) else if o.ONull? then Ok(VNull) else Err(ClassCast)
    case Character => Ok(VChar(f.charValue))
    case _ =>
      if o.OCalendar? then Ok(VDate(o.year, o.dayOfYear, o.secondOfDay, o.millisecond))
      else if o.ONull? then Err(NullPointer) else Err(ClassCast)
  }

  /**
   * `parser.readOctet()`: the concatenated chunks of a streamed payload, which ends the
   * stream, or else `objectValue` cast to `byte[]`.
   */
  function ReadOctetOf(c: Cursor): (r: Result<(Option<seq<byte>>, Cursor)>)
    ensures r.Ok? ==> r.value.1.rest == c.rest
  {
    var f := c.current.fields;
    if f.inStream then
      Ok((Some(c.current.streamed), c.(current := c.current.(fields := f.(inStream := false)))))
    else if f.objectValue.OOctet? then Ok((Some(f.objectValue.octets), c))
    else if f.objectValue.ONull? then Ok((None, c))
    else Err(ClassCast)
  }

  /** The same for `parser.readString()`, whose object is a `String`. */
  function StringOf(c: Cursor): (r: Result<(Value, Cursor)>)
    ensures r.Ok? ==> r.value.1.rest == c.rest
  {
    var f := c.current.fields;
    if f.inStream then
      Ok((VString(c.current.streamed), c.(current := c.current.(fields := f.(inStream := false)))))
    else if f.objectValue.OText? then Ok((VString(f.objectValue.utf8), c))
    else if f.objectValue.ONull? then Ok((VNull, c))
    else Err(ClassCast)
  }

  /**
   * An `Octet` token: with a known element count below 32 KiB the octets are read in memory,
   * otherwise (a count of -1, or a large one) they are spooled to a temporary file.
   */
  function OctetOf(c: Cursor): (r: Result<(Value, Cursor)>)
    ensures r.Ok? ==> r.value.1.rest == c.rest
  {
    var len := c.current.fields.elementCount;
    var p :- ReadOctetOf(c);
    if len != -1 && len < InMemoryLimit then
      Ok((if p.0.Some? then VOctet(p.0.value) else VNull, p.1))
    else
      Ok((VSpooled(if p.0.Some? then p.0.value else []), p.1))
  }

  /** The element a typed array takes from the current token: the accessor of its kind. */
  function Element(k: PrimKind, f: Fields): Prim
  {
    match k
    case BooleanKind => PBoolean(f.token == True)
    case ShortKind => PShort(f.shortValue)
    case IntKind => PInt(f.intValue)
    case LongKind => PLong(f.longValue)
    case FloatKind => PFloat(f.floatBits)
    case DoubleKind => PDouble(f.doubleBits)
    case CharKind => PChar(f.charValue)
  }

  /** The fill loop of a typed array: `n` more elements, each followed by a `next()`. */
  function PrimitiveElements(k: PrimKind, c: Cursor, n: nat, acc: seq<Prim>): (r: Result<(Value, Cursor)>)
    ensures r.Ok? && |r.value.1.rest| <= |c.rest|
    decreases n
  {
    if n == 0 then Ok((VPrimitiveArray(k, acc), c))
    else PrimitiveElements(k, Step(c), n - 1, acc + [Element(k, c.current.fields)])
  }

  /** A typed array: `new T[elementCount]`, one `next()`, then the fill loop. */
  function PrimitiveArrayOf(k: PrimKind, c: Cursor): (r: Result<(Value, Cursor)>)
    ensures c.current.fields.elementCount < 0 <==> r == Err(NegativeArraySize)
    ensures r.Ok? ==> |r.value.1.rest| <= |c.rest|
  {
    var len := c.current.fields.elementCount;
    if len < 0 then Err(NegativeArraySize) else PrimitiveElements(k, Step(c), len, [])
  }

  /** A key of an object: the value read must be a `String` or `null`. */
  function KeyOf(v: Value): (r: Result<Option<seq<byte>>>)
    ensures r.Ok? <==> v.VString? || v.VNull?
  {
    match v
    case VString(s) => Ok(Some(s))
    case VNull => Ok(None)
    case _ => Err(ClassCast)
  }

  /** A registered reader's `canRead(name)`; no reader can read the `null` name. */
  predicate CanRead(r: Reader, name: Option<seq<byte>>)
  {
    name.Some? && name.value in r.readable
  }

  /** The first reader of `rs` that can read `name`. */
  function FirstReadable(rs: seq<Reader>, name: Option<seq<byte>>): (i: Option<nat>)
    ensures i.Some? ==> i.value < |rs| && CanRead(rs[i.value], name)
    ensures i.Some? ==> forall j :: 0 <= j < i.value ==> !CanRead(rs[j], name)
    ensures i.None? ==> forall j :: 0 <= j < |rs| ==> !CanRead(rs[j], name)
  {
    if |rs| == 0 then None
    else if CanRead(rs[0], name) then Some(0)
    else
      var i := FirstReadable(rs[1..], name);
      if i.Some? then Some(i.value + 1) else None
  }

  /** The reader for a custom type name: the explicit map first, then the first that can read it. */
  function Resolve(h: Handlers, name: Option<seq<byte>>): (r: Option<Reader>)
    ensures h.explicitReaderMap.Some? && name.Some? && name.value in h.explicitReaderMap.value
            ==> r == Some(h.explicitReaderMap.value[name.value])
    ensures r.None? ==> h.typeReaders.None? || forall j :: 0 <= j < |h.typeReaders.value| ==> !CanRead(h.typeReaders.value[j], name)
  {
    if h.explicitReaderMap.Some? && name.Some? && name.value in h.explicitReaderMap.value then
      Some(h.explicitReaderMap.value[name.value])
    else if h.typeReaders.Some? && FirstReadable(h.typeReaders.value, name).Some? then
      Some(h.typeReaders.value[FirstReadable(h.typeReaders.value, name).value])
    else None
  }

  /**
   * `new ArrayList<>(len == -1 ? 16 : len)`: the list is sized before anything is read, and a
   * negative capacity throws `IllegalArgumentException`.
   */
  predicate ListSizable(len: int32)
  {
    len == -1 || len >= 0
  }

  /**
   * `new LinkedHashMap<>(len == -1 ? 16 : len * 2)`: the doubled count is `int` arithmetic, so
   * it wraps, and a negative capacity throws `IllegalArgumentException`.
   */
  predicate MapSizable(len: int32)
  {
    len == -1 || Wrap32(len as int * 2) >= 0
  }

  /**
   * The counts a map can be sized for: -1, those below 2^30, and those below -2^30, whose
   * doubling wraps round to a non-negative capacity.
   */
  lemma MapSizableCounts(len: int32)
    ensures MapSizable(len) <==> len == -1 || 0 <= len < 0x4000_0000 || len < -0x4000_0000
  {
    if 0 <= len < 0x4000_0000 {
      assert Wrap32(len as int * 2) == len * 2;
    } else if len >= 0x4000_0000 {
      assert (len * 2) % Two32 == len * 2;
    } else if len < -0x4000_0000 {
      assert (len * 2) % Two32 == len * 2 + Two32;
    } else {
      assert -0x4000_0000 <= len < 0;
      assert (len * 2) % Two32 == len * 2 + Two32;
    }
  }

  /** The `Array` reader: size the list, then run the loop. */
  function ArrayOf(h: Handlers, c: Cursor): (r: Result<(Value, Cursor)>)
    ensures !ListSizable(c.current.fields.elementCount) ==> r == Err(IllegalArgument)
    ensures ListSizable(c.current.fields.elementCount) ==> r == ArrayItems(h, c, [])
    ensures r.Ok? ==> |r.value.1.rest| <= |c.rest|
    decreases |c.rest|, 2
  {
    if ListSizable(c.current.fields.elementCount) then ArrayItems(h, c, []) else Err(IllegalArgument)
  }

  /** The `Object` reader: size the map, then run the loop. */
  function ObjectOf(h: Handlers, c: Cursor): (r: Result<(Value, Cursor)>)
    ensures !MapSizable(c.current.fields.elementCount) ==> r == Err(IllegalArgument)
    ensures MapSizable(c.current.fields.elementCount) ==> r == ObjectEntries(h, c, Empty())
    ensures r.Ok? ==> |r.value.1.rest| <= |c.rest|
    decreases |c.rest|, 2
  {
    if MapSizable(c.current.fields.elementCount) then ObjectEntries(h, c, Empty()) else Err(IllegalArgument)
  }

  /** `currentValue()`: the value that starts at the current token, and where reading it ends. */
  function Current(h: Handlers, c: Cursor): (r: Result<(Value, Cursor)>)
    ensures c.current.fields.token.NotAvailable? || c.current.fields.token.EndOfStructure?
            ==> r == Err(NotAValue)
    ensures c.current.fields.token.Array? && !ListSizable(c.current.fields.elementCount)
            ==> r == Err(IllegalArgument)
    ensures c.current.fields.token.Object? && !MapSizable(c.current.fields.elementCount)
            ==> r == Err(IllegalArgument)
    ensures r.Ok? ==> |r.value.1.rest| <= |c.rest|
    decreases |c.rest|, 5
  {
    var f := c.current.fields;
    if f.token.NotAvailable? || f.token.EndOfStructure? then Err(NotAValue)
    else if f.token.Octet? then OctetOf(c)
    else if f.token.String? then StringOf(c)
    else if f.token.Array? then ArrayOf(h, c)
    else if f.token.Object? then ObjectOf(h, c)
    else if f.token.CustomType? then CustomTypeOf(h, c)
    else if PrimitiveArrayKindOf(f.token).Some? then PrimitiveArrayOf(PrimitiveArrayKindOf(f.token).value, c)
    else
      var v :- ScalarOf(f);
      Ok((v, c))
  }

  /** `nextValue()`: `next()`, failing when there is no token left, then `currentValue()`. */
  function NextOf(h: Handlers, c: Cursor): (r: Result<(Value, Cursor)>)
    ensures |c.rest| == 0 ==> r == Err(NoMoreValue)
    ensures r.Ok? ==> |r.value.1.rest| < |c.rest|
    decreases |c.rest|, 3
  {
    if |c.rest| == 0 then Err(NoMoreValue) else Current(h, Step(c))
  }

  /**
   * The loop of an `Array` token after `acc` has been read: `next()`; stop when it returns
   * false or reaches `EndOfStructure`; otherwise add `currentValue()` and go on.
   */
  function ArrayItems(h: Handlers, c: Cursor, acc: seq<Value>): (r: Result<(Value, Cursor)>)
    ensures r.Ok? ==> |r.value.1.rest| <= |c.rest|
    decreases |c.rest|, 1
  {
    if |c.rest| == 0 then Ok((VList(acc), c))
    else
      var d := Step(c);
      if d.current.fields.token.EndOfStructure? then Ok((VList(acc), d))
      else
        var p :- Current(h, d);
        ArrayItems(h, p.1, acc + [p.0])
  }

  /**
   * The loop of an `Object` token after the entries `m`: `next()`; stop as for arrays;
   * otherwise read a key with `currentValue()`, its value with `nextValue()`, and `put` them.
   */
  function ObjectEntries(h: Handlers, c: Cursor, m: LinkedMap<Option<seq<byte>>, Value>)
    : (r: Result<(Value, Cursor)>)
    ensures r.Ok? ==> |r.value.1.rest| <= |c.rest|
    decreases |c.rest|, 1
  {
    if |c.rest| == 0 then Ok((VMap(m), c))
    else
      var d := Step(c);
      if d.current.fields.token.EndOfStructure? then Ok((VMap(m), d))
      else
        var k :- Current(h, d);
        var key :- KeyOf(k.0);
        var v :- NextOf(h, k.1);
        ObjectEntries(h, v.1, Put(m, key, v.0))
  }

  /**
   * A `CustomType` token: a registered reader when one resolves the name; otherwise the POJO
   * path, which loads the class, builds it, and fills it from the object `nextValue()` reads.
   */
  function CustomTypeOf(h: Handlers, c: Cursor): (r: Result<(Value, Cursor)>)
    ensures r.Ok? ==> |r.value.1.rest| <= |c.rest|
    decreases |c.rest|, 4
  {
    var o := c.current.fields.objectValue;
    if !(o.OText? || o.ONull?) then Err(ClassCast)
    else
      var name := if o.OText? then Some(o.utf8) else None;
      var reader := Resolve(h, name);
      if reader.Some? then Ok((VHandled(reader.value, name), c))
      else if name.None? then Err(NullPointer)
      else if name.value !in h.loadable then Err(CannotReadCustomType)
      else
        var p :- NextOf(h, c);
        match p.0
        case VMap(m) => Ok((VPojo(name.value, m), p.1))
        case VNull => Err(NullPointer)
        case _ => Err(ClassCast)
  }

  /** How a method's result and the parser's position after it agree with a specification. */
  predicate Agrees(r: Result<Value>, spec: Result<(Value, Cursor)>, now: Cursor)
  {
    match spec
    case Ok(p) => r == Ok(p.0) && now == p.1
    case Err(e) => r == Err(e)
  }

  class TbonReader {
    var current: Tok
    var rest: seq<Tok>
    const handlers: Handlers

    ghost function State(): Cursor
      reads this
    {
      Cursor(current, rest)
    }

    constructor (parser: Cursor, handlers: Handlers)
      ensures State() == parser && this.handlers == handlers
    {
      current, rest := parser.current, parser.rest;
      this.handlers := handlers;
    }

    /** The parser's `next()`. */
    method Next() returns (more: bool)
      modifies this
      ensures more <==> |old(rest)| > 0
      ensures State() == Step(old(State()))
    {
      more := |rest| > 0;
      if more {
        current, rest := rest[0], rest[1..];
      }
    }

    /** `currentValue()`: dispatch on the current token. */
    method CurrentValue() returns (r: Result<Value>)
      modifies this
      ensures Agrees(r, Current(handlers, old(State())), State())
      decreases |rest|, 5
    {
      var t := current.fields.token;
      if t.NotAvailable? || t.EndOfStructure? {
        return Err(NotAValue);
      } else if t.Octet? {
        r := ReadOctetValue();
      } else if t.String? {
        r := ReadStringValue();
      } else if t.Array? {
        r := ReadArray();
      } else if t.Object? {
        r := ReadObject();
      } else if t.CustomType? {
        r := ReadCustomType();
      } else if PrimitiveArrayKindOf(t).Some? {
        r := ReadPrimitiveArray(PrimitiveArrayKindOf(t).value);
      } else {
        r := ScalarOf(current.fields);
      }
    }

    /** `nextValue()`. */
    method NextValue() returns (r: Result<Value>)
      modifies this
      ensures Agrees(r, NextOf(handlers, old(State())), State())
      decreases |rest|, 3
    {
      var more := Next();
      if !more {
        return Err(NoMoreValue);
      }
      r := CurrentValue();
    }

    method ReadOctetValue() returns (r: Result<Value>)
      modifies this
      ensures Agrees(r, OctetOf(old(State())), State())
    {
      var len := current.fields.elementCount;
      var f := current.fields;
      var octets: Option<seq<byte>>;
      if f.inStream {
        octets := Some(current.streamed);
        current := current.(fields := f.(inStream := false));
      } else if f.objectValue.OOctet? {
        octets := Some(f.objectValue.octets);
      } else if f.objectValue.ONull? {
        octets := None;
      } else {
        return Err(ClassCast);
      }
      if len != -1 && len < InMemoryLimit {
        r := Ok(if octets.Some? then VOctet(octets.value) else VNull);
      } else {
        r := Ok(VSpooled(if octets.Some? then octets.value else []));
      }
    }

    method ReadStringValue() returns (r: Result<Value>)
      modifies this
      ensures Agrees(r, StringOf(old(State())), State())
    {
      var f := current.fields;
      if f.inStream {
        r := Ok(VString(current.streamed));
        current := current.(fields := f.(inStream := false));
      } else if f.objectValue.OText? {
        r := Ok(VString(f.objectValue.utf8));
      } else if f.objectValue.ONull? {
        r := Ok(VNull);
      } else {
        r := Err(ClassCast);
      }
    }

    /** The fill loop of a typed array, into a fresh array of exactly `elementCount` slots. */
    method ReadPrimitiveArray(k: PrimKind) returns (r: Result<Value>)
      modifies this
      ensures Agrees(r, PrimitiveArrayOf(k, old(State())), State())
    {
      var len := current.fields.elementCount;
      if len < 0 {
        return Err(NegativeArraySize);
      }
      var arr := new Prim[len];
      var _ := Next();
      ghost var start := State();
      var i := 0;
      while i < len
        invariant 0 <= i <= len
        invariant PrimitiveElements(k, start, len, []) == PrimitiveElements(k, State(), len - i, arr[..i])
      {
        arr[i] := Element(k, current.fields);
        assert arr[..i + 1] == arr[..i] + [Element(k, current.fields)];
        var _ := Next();
        i := i + 1;
      }
      assert arr[..i] == arr[..];
      r := Ok(VPrimitiveArray(k, arr[..]));
    }

    /** The `Array` loop: `while (next())`, stopping at `EndOfStructure`. */
    method ReadArray() returns (r: Result<Value>)
      modifies this
      ensures Agrees(r, ArrayOf(handlers, old(State())), State())
      decreases |rest|, 2
    {
      var len := current.fields.elementCount;
      if !(len == -1 || len >= 0) {
        return Err(IllegalArgument);
      }
      var list: seq<Value> := [];
      ghost var start := State();
      while true
        invariant |rest| <= |start.rest|
        invariant ArrayItems(handlers, start, []) == ArrayItems(handlers, State(), list)
        decreases |rest|
      {
        var more := Next();
        if !more || current.fields.token.EndOfStructure? {
          return Ok(VList(list));
        }
        var v := CurrentValue();
        if v.Err? {
          return Err(v.error);
        }
        list := list + [v.value];
      }
    }

    /** The `Object` loop: a key by `currentValue()`, cast to `String`, then `nextValue()`. */
    method ReadObject() returns (r: Result<Value>)
      modifies this
      ensures Agrees(r, ObjectOf(handlers, old(State())), State())
      decreases |rest|, 2
    {
      var len := current.fields.elementCount;
      if !(len == -1 || Wrap32(len as int * 2) >= 0) {
        return Err(IllegalArgument);
      }
      var m: LinkedMap<Option<seq<byte>>, Value> := Empty();
      ghost var start := State();
      while true
        invariant |rest| <= |start.rest|
        invariant ObjectEntries(handlers, start, Empty()) == ObjectEntries(handlers, State(), m)
        decreases |rest|
      {
        var more := Next();
        if !more || current.fields.token.EndOfStructure? {
          return Ok(VMap(m));
        }
        var k := CurrentValue();
        if k.Err? {
          return Err(k.error);
        }
        var key := KeyOf(k.value);
        if key.Err? {
          return Err(key.error);
        }
        var v := NextValue();
        if v.Err? {
          return Err(v.error);
        }
        m := Put(m, key.value, v.value);
      }
    }

    /** `CustomType`: the explicit map, then the first reader that can read the name, then POJO. */
    method ReadCustomType() returns (r: Result<Value>)
      modifies this
      ensures Agrees(r, CustomTypeOf(handlers, old(State())), State())
      decreases |rest|, 4
    {
      var o := current.fields.objectValue;
      if !(o.OText? || o.ONull?) {
        return Err(ClassCast);
      }
      var name := if o.OText? then Some(o.utf8) else None;
      if handlers.explicitReaderMap.Some? && name.Some? && name.value in handlers.explicitReaderMap.value {
        return Ok(VHandled(handlers.explicitReaderMap.value[name.value], name));
      }
      if handlers.typeReaders.Some? {
        var readers := handlers.typeReaders.value;
        var i := 0;
        while i < |readers|
          invariant 0 <= i <= |readers|
          invariant forall j :: 0 <= j < i ==> !CanRead(readers[j], name)
        {
          if CanRead(readers[i], name) {
            assert FirstReadable(readers, name) == Some(i);
            return Ok(VHandled(readers[i], name));
          }
          i := i + 1;
        }
      }
      if name.None? {
        return Err(NullPointer);
      }
      if name.value !in handlers.loadable {
        return Err(CannotReadCustomType);
      }
      var p := NextValue();
      if p.Err? {
        return Err(p.error);
      }
      match p.value
      case VMap(m) => r := Ok(VPojo(name.value, m));
      case VNull => r := Err(NullPointer);
      case _ => r := Err(ClassCast);
    }
  }
}
