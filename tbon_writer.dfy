/**
 * `TBONWriter`: writes a Java object graph through a generator. `writeObject` writes `null`
 * for a null reference and for an object equal to one it is already writing (the guard stack
 * that breaks cycles); otherwise it pushes the object on the guard and looks for a writer in a
 * fixed order: the explicit type-writer map, the registered multi-type writers, the built-in
 * writers of exact classes, the built-in writers of interfaces, Java arrays, and last the
 * public properties of a plain object.
 *
 * The heap of Java objects is a map from references to `Obj` values that record what the
 * writer asks of each object: its class, which `equals` class it belongs to, which
 * interfaces it implements, and what iterating it or reading its properties gives.
 */
module TbonWriting {
  import opened JavaTypes
  import opened TbonToken
  import opened SteakWire
  import opened SteakEncoding
  import opened SteakGeneration
  import opened LinkedMaps
  import opened TypeHandlers
  import TbonReading

  // ---------------------------------------------------------------- the object graph

  /** The keys of `INTERFACE_WRITERS`. */
  datatype Iface =
    | MapIface | CollectionIface | DateIface | CalendarIface | IterableIface
    | InputStreamIface | ChannelIface | ByteBufferIface

  /** The order in which `INTERFACE_WRITERS`, a `LinkedHashMap`, is searched. */
  const InterfaceOrder: seq<Iface> :=
    [MapIface, CollectionIface, DateIface, CalendarIface, IterableIface,
     InputStreamIface, ChannelIface, ByteBufferIface]

  /** The values of the classes in `DEFAULT_WRITERS`: boxed primitives, big numbers, strings, arrays of primitives. */
  datatype Builtin =
    | BBoolean(z: bool)
    | BByte(b: int8)
    | BShort(s: int16)
    | BInt(i: int32)
    | BLong(l: int64)
    | BFloat(fbits: nat)
    | BDouble(dbits: nat)
    | BChar(c: char16)
    | BBigInteger(v: int)
    | BBigDecimal(unscaled: int, scale: int32)
    | BBytes(octets: seq<byte>)
    | BString(utf8: seq<byte>)
    | BPrimitiveArray(kind: PrimKind, elements: seq<TbonReading.Prim>)

  /** The calendar fields `write(Calendar)` reads; a `Date` is first turned into a calendar. */
  datatype CalendarFields = CalendarFields(year: int32, dayOfYear: int32, hourOfDay: int32, minute: int32,
                                           second: int32, millisecond: int32)

  /**
   * One Java object. `eqClass` stands for `equals`: two objects are equal exactly when their
   * `eqClass` values are. `entries` is what `entrySet()` iterates, each key as the UTF-8 bytes of its
   * `toString()` or `None` for a null key; `elements` is what iterating a collection, an
   * iterable or an array gives; `properties` is the property map a plain object is written
   * with, in the order it is iterated; `streamed` is what the generator writes for an input
   * stream or a channel.
   */
  datatype Obj = Obj(
    cls: Class,
    eqClass: nat,
    builtin: Option<Builtin>,
    ifaces: set<Iface>,
    entries: seq<(Option<seq<byte>>, Option<Ref>)>,
    elements: seq<Option<Ref>>,
    isArray: bool,
    calendar: CalendarFields,
    octets: seq<byte>,
    streamed: seq<byte>,
    isObjectClass: bool,
    properties: seq<(seq<byte>, Option<Ref>)>,
    closeable: bool,
    closeFails: bool)

  /**
   * What the writer works with: the heap, the explicit type-writer map and the multi-type
   * writers it was built with (each may be `null`), and the bytes a registered writer's
   * `write(writer, obj)` produces for an object.
   */
  datatype Env = Env(
    heap: map<Ref, Obj>,
    explicitWriterMap: Option<LinkedMap<Class, Writer>>,
    typeWriters: Option<seq<Writer>>,
    userOutput: (nat, Ref) -> seq<byte>)

  predicate Refers(heap: map<Ref, Obj>, o: Option<Ref>)
  {
    o.None? || o.value in heap
  }

  predicate AllRefer(heap: map<Ref, Obj>, es: seq<Option<Ref>>)
  {
    forall i :: 0 <= i < |es| ==> Refers(heap, es[i])
  }

  predicate PrimOk(k: PrimKind, p: TbonReading.Prim)
  {
    match p
    case PBoolean(_) => k == BooleanKind
    case PShort(_) => k == ShortKind
    case PInt(_) => k == IntKind
    case PLong(_) => k == LongKind
    case PFloat(bits) => k == FloatKind && bits < Two32
    case PDouble(bits) => k == DoubleKind && bits < Two64
    case PChar(_) => k == CharKind
  }

  /** Sizes Java keeps in an `int`, and element types a Java array enforces. */
  predicate BuiltinOk(b: Builtin)
  {
    match b
    case BFloat(bits) => bits < Two32
    case BDouble(bits) => bits < Two64
    case BBigInteger(v) => |ToTwos(v)| < Two31
    case BBigDecimal(unscaled, _) => |ToTwos(unscaled)| < Two31
    case BBytes(octets) => |octets| < Two31
    case BString(utf8) => |utf8| < Two31
    case BPrimitiveArray(k, es) => |es| < Two31 && forall i :: 0 <= i < |es| ==> PrimOk(k, es[i])
    case _ => true
  }

  predicate ObjOk(heap: map<Ref, Obj>, o: Obj)
  {
    && |o.cls| < Two31 && |o.entries| < Two31 && |o.elements| < Two31 && |o.properties| < Two31
    && |o.octets| < Two31
    && (o.builtin.Some? ==> BuiltinOk(o.builtin.value))
    && AllRefer(heap, o.elements)
    && (forall i :: 0 <= i < |o.entries| ==>
          Refers(heap, o.entries[i].1) && (o.entries[i].0.Some? ==> |o.entries[i].0.value| < Two31))
    && (forall i :: 0 <= i < |o.properties| ==> Refers(heap, o.properties[i].1) && |o.properties[i].0| < Two31)
  }

  /** Every reference in the heap leads to an object in the heap. */
  predicate WellFormed(e: Env)
  {
    forall r {:trigger e.heap[r]} :: r in e.heap ==> ObjOk(e.heap, e.heap[r])
  }

  // ---------------------------------------------------------------- the guard

  predicate GuardIn(e: Env, g: seq<Ref>)
  {
    forall i :: 0 <= i < |g| ==> g[i] in e.heap
  }

  function Labels(heap: map<Ref, Obj>): set<nat>
  {
    set r | r in heap :: heap[r].eqClass
  }

  function GuardLabels(e: Env, g: seq<Ref>): (ls: set<nat>)
    requires GuardIn(e, g)
    ensures ls <= Labels(e.heap)
  {
    set i | 0 <= i < |g| :: e.heap[g[i]].eqClass
  }

  /** `guard.contains(obj)`: some object on the guard equals `r`. */
  predicate InGuard(e: Env, g: seq<Ref>, r: Ref)
    requires GuardIn(e, g) && r in e.heap
  {
    e.heap[r].eqClass in GuardLabels(e, g)
  }

  /** How many `equals` classes the guard may still take: what makes `writeObject` end on every graph. */
  function Room(e: Env, g: seq<Ref>): nat
    requires GuardIn(e, g)
  {
    |Labels(e.heap) - GuardLabels(e, g)|
  }

  /** `guard.push(obj)` adds the equality class of `obj` to those of the guard. */
  lemma PushLabels(e: Env, g: seq<Ref>, r: Ref)
    requires GuardIn(e, g) && r in e.heap
    ensures GuardIn(e, [r] + g)
    ensures GuardLabels(e, [r] + g) == GuardLabels(e, g) + {e.heap[r].eqClass}
  {
    var g' := [r] + g;
    forall l | l in GuardLabels(e, g) ensures l in GuardLabels(e, g') {
      var i :| 0 <= i < |g| && e.heap[g[i]].eqClass == l;
      assert g'[i + 1] == g[i];
    }
    assert g'[0] == r;
  }

  /** Pushing an object that is not on the guard leaves less room. */
  lemma {:induction false} PushShrinks(e: Env, g: seq<Ref>, r: Ref)
    requires GuardIn(e, g) && r in e.heap && !InGuard(e, g, r)
    ensures GuardIn(e, [r] + g) && Room(e, [r] + g) < Room(e, g)
  {
    PushLabels(e, g, r);
    var l := e.heap[r].eqClass;
    var free := Labels(e.heap) - GuardLabels(e, g);
    assert l in free;
    assert Labels(e.heap) - GuardLabels(e, [r] + g) == free - {l};
  }

  /** What `guard.push(obj)` leaves: `r` on top of the old guard, and less room. */
  lemma Pushed(e: Env, g: seq<Ref>, r: Ref)
    requires GuardIn(e, g) && r in e.heap && !InGuard(e, g, r)
    ensures var p := [r] + g;
      && GuardIn(e, p) && Room(e, p) < Room(e, g)
      && |p| > 0 && p[0] == r && p[1..] == g && !(e.heap[r].eqClass in GuardLabels(e, p[1..]))
  {
    PushShrinks(e, g, r);
    assert ([r] + g)[1..] == g;
  }

  // ---------------------------------------------------------------- what a write does

  /**
   * The effect of a write: the bytes it hands the generator, the objects it closes in order,
   * and the exception it ends with, if any (the bytes before the exception stay written).
   */
  datatype Trace = Trace(out: seq<byte>, closed: seq<Ref>, err: Option<Error>)

  function Done(out: seq<byte>, closed: seq<Ref>): (t: Trace)
    ensures t.err.None?
  {
    Trace(out, closed, None)
  }

  /** `a` then `b`; an exception in `a` skips `b`. */
  function Then(a: Trace, b: Trace): (t: Trace)
    ensures a.err.Some? ==> t == a
    ensures a.err.None? ==> t.out == a.out + b.out && t.closed == a.closed + b.closed && t.err == b.err
  {
    if a.err.Some? then a else Trace(a.out + b.out, a.closed + b.closed, b.err)
  }

  /** A start marker, a body, and an end marker written only when the body ends normally. */
  function Framed(start: seq<byte>, body: Trace, end: seq<byte>): (t: Trace)
    ensures t.closed == body.closed && t.err == body.err
    ensures body.err.None? ==> t.out == start + body.out + end
    ensures body.err.Some? ==> t.out == start + body.out
  {
    Then(Done(start, []), Then(body, Done(end, [])))
  }

  /** The generator output and the closed objects after a trace, and its exception. */
  function Applied(written: seq<byte>, closed: seq<Ref>, t: Trace): (seq<byte>, seq<Ref>, Option<Error>)
  {
    (written + t.out, closed + t.closed, t.err)
  }

  /** Every closed object is in the heap, is `AutoCloseable`, and is not one the guard holds. */
  predicate ClosedOk(e: Env, g: seq<Ref>, closed: seq<Ref>)
    requires GuardIn(e, g)
  {
    forall i :: 0 <= i < |closed| ==>
      closed[i] in e.heap && e.heap[closed[i]].closeable && e.heap[closed[i]].eqClass !in GuardLabels(e, g)
  }

  /** What the generator writes for one element of a primitive array. */
  function PrimBytes(k: PrimKind, p: TbonReading.Prim): seq<byte>
    requires PrimOk(k, p)
  {
    match p
    case PBoolean(z) => EncodeBoolean(z)
    case PShort(s) => EncodeShort(s)
    case PInt(i) => EncodeInt(i)
    case PLong(l) => EncodeLong(l)
    case PFloat(bits) => EncodeFloat(bits)
    case PDouble(bits) => EncodeDouble(bits)
    case PChar(c) => EncodeChar(c)
  }

  /** The elements of a primitive array, written one after the other. */
  function PrimsBytes(k: PrimKind, ps: seq<TbonReading.Prim>): seq<byte>
    requires forall i :: 0 <= i < |ps| ==> PrimOk(k, ps[i])
  {
    if |ps| == 0 then [] else PrimsBytes(k, ps[..|ps| - 1]) + PrimBytes(k, ps[|ps| - 1])
  }

  lemma PrimsSnoc(k: PrimKind, es: seq<TbonReading.Prim>, i: nat)
    requires i < |es| && forall j :: 0 <= j < |es| ==> PrimOk(k, es[j])
    ensures PrimsBytes(k, es[..i + 1]) == PrimsBytes(k, es[..i]) + PrimBytes(k, es[i])
  {
    assert es[..i + 1][..i] == es[..i];
  }

  /** What the `DEFAULT_WRITERS` entry of the value's class writes. */
  function BuiltinBytes(b: Builtin): (s: seq<byte>)
    requires BuiltinOk(b)
  {
    match b
    case BBoolean(z) => EncodeBoolean(z)
    case BByte(x) => EncodeByte(x)
    case BShort(x) => EncodeShort(x)
    case BInt(x) => EncodeInt(x)
    case BLong(x) => EncodeLong(x)
    case BFloat(bits) => EncodeFloat(bits)
    case BDouble(bits) => EncodeDouble(bits)
    case BChar(c) => EncodeChar(c)
    case BBigInteger(v) => EncodeBigInteger(v)
    case BBigDecimal(unscaled, scale) => EncodeDecimal(unscaled, scale)
    case BBytes(octets) => EncodeOctet(octets)
    case BString(utf8) => EncodeString(utf8)
    case BPrimitiveArray(k, es) => EncodeStartPrimitiveArray(Primitive(k), |es|).value + PrimsBytes(k, es) + EncodeEndArray()
  }

  function CalendarBytes(c: CalendarFields): seq<byte>
  {
    EncodeDateTime(c.year, c.dayOfYear, SecondOfDay(c.hourOfDay, c.minute, c.second), c.millisecond)
  }

  /** `explicitTypeWriterMap.get(cls)`, when there is a map. */
  function ExplicitWriter(e: Env, cls: Class): (w: Option<Writer>)
    ensures w.Some? <==> e.explicitWriterMap.Some? && cls in Keys(e.explicitWriterMap.value)
  {
    if e.explicitWriterMap.None? then None else Get(e.explicitWriterMap.value, cls)
  }

  /** The index of the first writer whose `canWrite` holds for an object of class `cls`, or `|ws|`. */
  function FirstWritable(ws: seq<Writer>, cls: Class): (i: nat)
    ensures i <= |ws|
    ensures i < |ws| ==> cls in ws[i].writable
    ensures forall j :: 0 <= j < i ==> cls !in ws[j].writable
  {
    if |ws| == 0 then 0
    else if cls in ws[0].writable then 0
    else 1 + FirstWritable(ws[1..], cls)
  }

  /** The multi-type writer that takes an object of class `cls`, when there are any. */
  function MultiWriter(e: Env, cls: Class): (w: Option<Writer>)
    ensures w.Some? ==> e.typeWriters.Some? && w.value in e.typeWriters.value && cls in w.value.writable
    ensures w.None? && e.typeWriters.Some? ==> forall v :: v in e.typeWriters.value ==> cls !in v.writable
  {
    if e.typeWriters.None? then None
    else
      var ws := e.typeWriters.value;
      var i := FirstWritable(ws, cls);
      if i < |ws| then Some(ws[i]) else None
  }

  /** The index of the first interface of `order` among `ifaces`, or `|order|`. */
  function FirstIn(order: seq<Iface>, ifaces: set<Iface>): (k: nat)
    ensures k <= |order|
    ensures k < |order| ==> order[k] in ifaces
    ensures forall j :: 0 <= j < k ==> order[j] !in ifaces
  {
    if |order| == 0 then 0
    else if order[0] in ifaces then 0
    else 1 + FirstIn(order[1..], ifaces)
  }

  /** The first interface, in the order of `INTERFACE_WRITERS`, among `ifaces`. */
  function FirstIface(ifaces: set<Iface>): (r: Option<Iface>)
    ensures r.Some? ==> r.value in ifaces
    ensures r.None? <==> forall i :: i in InterfaceOrder ==> i !in ifaces
  {
    var k := FirstIn(InterfaceOrder, ifaces);
    if k < |InterfaceOrder| then Some(InterfaceOrder[k]) else None
  }

  /** `handleAutoCloseable(obj)`: close an `AutoCloseable`; an exception from `close` becomes an `IOException`. */
  function AutoClose(o: Obj, r: Ref): (t: Trace)
    ensures t.out == []
    ensures t.closed == (if o.closeable then [r] else [])
    ensures t.err.Some? <==> o.closeable && o.closeFails
  {
    if !o.closeable then Done([], [])
    else if o.closeFails then Trace([], [r], Some(CloseFailed))
    else Done([], [r])
  }

  /**
   * `writeObject(obj)` with guard `g`. Every object it closes is `AutoCloseable` and is not
   * equal to one that an enclosing call is still writing.
   */
  function Write(e: Env, g: seq<Ref>, o: Option<Ref>): (t: Trace)
    requires WellFormed(e) && GuardIn(e, g) && Refers(e.heap, o)
    ensures ClosedOk(e, g, t.closed)
    decreases Room(e, g), 0, 0
  {
    if o.None? || InGuard(e, g, o.value) then Done(EncodeNull(), [])
    else
      var r := o.value;
      PushShrinks(e, g, r);
      var t := Dispatch(e, [r] + g, r);
      PushLabels(e, g, r);
      t
  }

  /** The body of the `try` in `writeObject`, with `r` already pushed on the guard. */
  function Dispatch(e: Env, g: seq<Ref>, r: Ref): (t: Trace)
    requires WellFormed(e) && GuardIn(e, g) && r in e.heap && |g| > 0 && g[0] == r
    requires !(e.heap[r].eqClass in GuardLabels(e, g[1..]))
    ensures ClosedOk(e, g[1..], t.closed)
    decreases Room(e, g), 3, 0
  {
    var o := e.heap[r];
    assert GuardIn(e, g[1..]) && [r] + g[1..] == g;
    PushLabels(e, g[1..], r);
    var explicit := ExplicitWriter(e, o.cls);
    if explicit.Some? then Then(Done(e.userOutput(explicit.value.id, r), []), AutoClose(o, r))
    else
      var multi := MultiWriter(e, o.cls);
      if multi.Some? then Then(Done(e.userOutput(multi.value.id, r), []), AutoClose(o, r))
      else if o.builtin.Some? then Done(BuiltinBytes(o.builtin.value), [])
      else
        var iface := FirstIface(o.ifaces);
        if iface.Some? then Then(IfaceWrite(e, g, r, iface.value), AutoClose(o, r))
        else if o.isArray then ListWrite(e, g, r)
        else PojoWrite(e, g, r)
  }

  /** The `INTERFACE_WRITERS` entry for `i`. */
  function IfaceWrite(e: Env, g: seq<Ref>, r: Ref, i: Iface): (t: Trace)
    requires WellFormed(e) && GuardIn(e, g) && r in e.heap
    ensures ClosedOk(e, g, t.closed)
    decreases Room(e, g), 2, 1
  {
    var o := e.heap[r];
    match i
    case MapIface => MapWrite(e, g, r)
    case CollectionIface => ListWrite(e, g, r)
    case DateIface => Done(CalendarBytes(o.calendar), [])
    case CalendarIface => Done(CalendarBytes(o.calendar), [])
    case IterableIface => IterableWrite(e, g, r)
    case InputStreamIface => Done(o.streamed, [])
    case ChannelIface => Done(o.streamed, [])
    case ByteBufferIface => Done(EncodeOctet(o.octets), [])
  }

  /** A map: its size, each entry, the end. */
  function MapWrite(e: Env, g: seq<Ref>, r: Ref): (t: Trace)
    requires WellFormed(e) && GuardIn(e, g) && r in e.heap
    ensures ClosedOk(e, g, t.closed)
    decreases Room(e, g), 2, 0
  {
    var o := e.heap[r];
    Framed(EncodeStartObjectCount(|o.entries|), Entries(e, g, o.entries, 0), EncodeEndObject())
  }

  /** A collection, or a Java array of objects: its length, each element by `writeObject`, the end. */
  function ListWrite(e: Env, g: seq<Ref>, r: Ref): (t: Trace)
    requires WellFormed(e) && GuardIn(e, g) && r in e.heap
    ensures ClosedOk(e, g, t.closed)
    decreases Room(e, g), 2, 0
  {
    var o := e.heap[r];
    Framed(EncodeStartArrayCount(|o.elements|), Elems(e, g, o.elements, 0), EncodeEndArray())
  }

  /** Any other iterable: an array of unknown length, each element, the end. */
  function IterableWrite(e: Env, g: seq<Ref>, r: Ref): (t: Trace)
    requires WellFormed(e) && GuardIn(e, g) && r in e.heap
    ensures ClosedOk(e, g, t.closed)
    decreases Room(e, g), 2, 0
  {
    var o := e.heap[r];
    Framed(EncodeStartArray(), Elems(e, g, o.elements, 0), EncodeEndArray())
  }

  /**
   * A plain object: for `Object` itself the search for getters walks past the top of the
   * class hierarchy and throws `NullPointerException` before anything is written; otherwise
   * the class name as a custom type, then the properties as an object.
   */
  function PojoWrite(e: Env, g: seq<Ref>, r: Ref): (t: Trace)
    requires WellFormed(e) && GuardIn(e, g) && r in e.heap
    ensures ClosedOk(e, g, t.closed)
    decreases Room(e, g), 2, 0
  {
    var o := e.heap[r];
    if o.isObjectClass then Trace([], [], Some(NullPointer))
    else match EncodeCustomType(o.cls)
      case Err(x) => Trace([], [], Some(x))
      case Ok(head) =>
        Framed(head + EncodeStartObjectCount(|o.properties|), Props(e, g, o.properties, 0), EncodeEndObject())
  }

  /** `writeObject` of each element from index `i` on. */
  function Elems(e: Env, g: seq<Ref>, es: seq<Option<Ref>>, i: nat): (t: Trace)
    requires WellFormed(e) && GuardIn(e, g) && AllRefer(e.heap, es) && i <= |es|
    ensures ClosedOk(e, g, t.closed)
    decreases Room(e, g), 1, |es| - i
  {
    if i == |es| then Done([], []) else Then(Write(e, g, es[i]), Elems(e, g, es, i + 1))
  }

  /** Each map entry from index `i` on: the key's `toString()` as a string, then the value. */
  function Entries(e: Env, g: seq<Ref>, es: seq<(Option<seq<byte>>, Option<Ref>)>, i: nat): (t: Trace)
    requires WellFormed(e) && GuardIn(e, g) && i <= |es|
    requires forall j :: 0 <= j < |es| ==> Refers(e.heap, es[j].1) && (es[j].0.Some? ==> |es[j].0.value| < Two31)
    ensures ClosedOk(e, g, t.closed)
    decreases Room(e, g), 1, |es| - i
  {
    if i == |es| then Done([], [])
    else if es[i].0.None? then Trace([], [], Some(NullPointer))
    else Then(Done(EncodeString(es[i].0.value), []), Then(Write(e, g, es[i].1), Entries(e, g, es, i + 1)))
  }

  /** Each property from index `i` on: its name as a string, then its value. */
  function Props(e: Env, g: seq<Ref>, ps: seq<(seq<byte>, Option<Ref>)>, i: nat): (t: Trace)
    requires WellFormed(e) && GuardIn(e, g) && i <= |ps|
    requires forall j :: 0 <= j < |ps| ==> Refers(e.heap, ps[j].1) && |ps[j].0| < Two31
    ensures ClosedOk(e, g, t.closed)
    decreases Room(e, g), 1, |ps| - i
  {
    if i == |ps| then Done([], [])
    else Then(Done(EncodeString(ps[i].0), []), Then(Write(e, g, ps[i].1), Props(e, g, ps, i + 1)))
  }

  // ---------------------------------------------------------------- the writer

  /** A trace that ends normally, then another: the state after both. */
  lemma AppliedThen(w: seq<byte>, c: seq<Ref>, a: Trace, b: Trace)
    requires a.err.None?
    ensures Applied(w, c, Then(a, b)) == Applied(w + a.out, c + a.closed, b)
  {
    assert w + (a.out + b.out) == w + a.out + b.out;
    assert c + (a.closed + b.closed) == c + a.closed + b.closed;
  }

  /** Nothing more to do leaves the state as it is. */
  lemma AppliedDone(w: seq<byte>, c: seq<Ref>)
    ensures Applied(w, c, Done([], [])) == (w, c, None)
  {
    assert w + [] == w && c + [] == c;
  }

  /** A method's effect: it wrote what `t` writes, closed what `t` closes, and ends as `t` ends. */
  predicate Emitted(w0: seq<byte>, c0: seq<Ref>, t: Trace, w1: seq<byte>, c1: seq<Ref>, err: Option<Error>)
  {
    w1 == w0 + t.out && c1 == c0 + t.closed && err == t.err
  }

  /** Writing `bytes` first, then what `b` does. */
  lemma EmittedAfter(w0: seq<byte>, c0: seq<Ref>, bytes: seq<byte>, b: Trace,
                     w1: seq<byte>, c1: seq<Ref>, err: Option<Error>)
    requires Emitted(w0 + bytes, c0, b, w1, c1, err)
    ensures Emitted(w0, c0, Then(Done(bytes, []), b), w1, c1, err)
  {
    assert w0 + (bytes + b.out) == w0 + bytes + b.out;
    assert [] + b.closed == b.closed;
  }

  /** Writing the start marker and the body; the end marker follows when the body ends normally. */
  lemma FramedSteps(w0: seq<byte>, c0: seq<Ref>, start: seq<byte>, body: Trace, end: seq<byte>,
                    w1: seq<byte>, c1: seq<Ref>, err: Option<Error>)
    requires Emitted(w0 + start, c0, body, w1, c1, err)
    ensures err.Some? ==> Emitted(w0, c0, Framed(start, body, end), w1, c1, err)
    ensures err.None? ==> Emitted(w0, c0, Framed(start, body, end), w1 + end, c1, err)
  {
    assert w0 + (start + body.out) == w0 + start + body.out;
    assert w0 + (start + body.out + end) == w0 + start + body.out + end;
  }

  /**
   * One step of a loop over the pieces of a trace, of which `Then(t, more)` is still to come:
   * after `t`, either its exception ends the whole trace, or `more` is what is still to come.
   */
  lemma LoopStep(w0: seq<byte>, c0: seq<Ref>, t: Trace, more: Trace,
                 w1: seq<byte>, c1: seq<Ref>, err: Option<Error>)
    requires Emitted(w0, c0, t, w1, c1, err)
    ensures err.Some? ==> Applied(w0, c0, Then(t, more)) == (w1, c1, err)
    ensures err.None? ==> Applied(w0, c0, Then(t, more)) == Applied(w1, c1, more)
  {
    if err.None? {
      AppliedThen(w0, c0, t, more);
    }
  }

  /** As `LoopStep`, for a step that first writes `bytes` and then does what `t` does. */
  lemma PairLoopStep(w0: seq<byte>, c0: seq<Ref>, bytes: seq<byte>, t: Trace, more: Trace,
                     w1: seq<byte>, c1: seq<Ref>, err: Option<Error>)
    requires Emitted(w0 + bytes, c0, t, w1, c1, err)
    ensures err.Some? ==> Applied(w0, c0, Then(Done(bytes, []), Then(t, more))) == (w1, c1, err)
    ensures err.None? ==> Applied(w0, c0, Then(Done(bytes, []), Then(t, more))) == Applied(w1, c1, more)
  {
    AppliedThen(w0, c0, Done(bytes, []), Then(t, more));
    assert c0 + [] == c0;
    LoopStep(w0 + bytes, c0, t, more, w1, c1, err);
  }

  /** One step of the element loop: element `i` is written, then the rest follows unless it threw. */
  lemma {:induction false} ElemsStep(e: Env, g: seq<Ref>, es: seq<Option<Ref>>, i: nat,
                                     w0: seq<byte>, c0: seq<Ref>, w1: seq<byte>, c1: seq<Ref>, err: Option<Error>)
    requires WellFormed(e) && GuardIn(e, g) && AllRefer(e.heap, es) && i < |es|
    requires Emitted(w0, c0, Write(e, g, es[i]), w1, c1, err)
    ensures err.Some? ==> Applied(w0, c0, Elems(e, g, es, i)) == (w1, c1, err)
    ensures err.None? ==> Applied(w0, c0, Elems(e, g, es, i)) == Applied(w1, c1, Elems(e, g, es, i + 1))
  {
    LoopStep(w0, c0, Write(e, g, es[i]), Elems(e, g, es, i + 1), w1, c1, err);
  }

  /** One step of the entry loop, for an entry whose key is not null. */
  lemma {:induction false} EntriesStep(e: Env, g: seq<Ref>, es: seq<(Option<seq<byte>>, Option<Ref>)>, i: nat,
                                       w0: seq<byte>, c0: seq<Ref>, w1: seq<byte>, c1: seq<Ref>, err: Option<Error>)
    requires WellFormed(e) && GuardIn(e, g) && i < |es| && es[i].0.Some?
    requires forall j :: 0 <= j < |es| ==> Refers(e.heap, es[j].1) && (es[j].0.Some? ==> |es[j].0.value| < Two31)
    requires Emitted(w0 + EncodeString(es[i].0.value), c0, Write(e, g, es[i].1), w1, c1, err)
    ensures err.Some? ==> Applied(w0, c0, Entries(e, g, es, i)) == (w1, c1, err)
    ensures err.None? ==> Applied(w0, c0, Entries(e, g, es, i)) == Applied(w1, c1, Entries(e, g, es, i + 1))
  {
    PairLoopStep(w0, c0, EncodeString(es[i].0.value), Write(e, g, es[i].1), Entries(e, g, es, i + 1), w1, c1, err);
  }

  /** One step of the property loop. */
  lemma {:induction false} PropsStep(e: Env, g: seq<Ref>, ps: seq<(seq<byte>, Option<Ref>)>, i: nat,
                                     w0: seq<byte>, c0: seq<Ref>, w1: seq<byte>, c1: seq<Ref>, err: Option<Error>)
    requires WellFormed(e) && GuardIn(e, g) && i < |ps|
    requires forall j :: 0 <= j < |ps| ==> Refers(e.heap, ps[j].1) && |ps[j].0| < Two31
    requires Emitted(w0 + EncodeString(ps[i].0), c0, Write(e, g, ps[i].1), w1, c1, err)
    ensures err.Some? ==> Applied(w0, c0, Props(e, g, ps, i)) == (w1, c1, err)
    ensures err.None? ==> Applied(w0, c0, Props(e, g, ps, i)) == Applied(w1, c1, Props(e, g, ps, i + 1))
  {
    PairLoopStep(w0, c0, EncodeString(ps[i].0), Write(e, g, ps[i].1), Props(e, g, ps, i + 1), w1, c1, err);
  }

  class TbonWriter {
    const generator: SteakGenerator
    const env: Env
    /** The objects being written, innermost first (`guard.push` adds at the front). */
    var guard: seq<Ref>
    /** The objects `handleAutoCloseable` has closed, in order. */
    var closed: seq<Ref>

    ghost predicate Valid()
      reads this, generator, generator.buffer
    {
      generator.Valid() && WellFormed(env) && GuardIn(env, guard)
    }

    constructor (generator: SteakGenerator, env: Env)
      requires generator.Valid() && WellFormed(env)
      ensures Valid() && this.generator == generator && this.env == env
      ensures guard == [] && closed == []
      ensures generator.written == old(generator.written)
    {
      this.generator := generator;
      this.env := env;
      guard := [];
      closed := [];
    }

    /** `guard.contains(obj)`: a scan of the guard for an object equal to `r`. */
    method GuardContains(r: Ref) returns (b: bool)
      requires Valid() && r in env.heap
      ensures b <==> InGuard(env, guard, r)
    {
      var i := 0;
      while i < |guard|
        invariant 0 <= i <= |guard|
        invariant forall j :: 0 <= j < i ==> env.heap[guard[j]].eqClass != env.heap[r].eqClass
      {
        if env.heap[guard[i]].eqClass == env.heap[r].eqClass {
          return true;
        }
        i := i + 1;
      }
      return false;
    }

    /** The loop over the multi-type writers: the first whose `canWrite` holds. */
    method FindMultiWriter(cls: Class) returns (w: Option<Writer>)
      ensures w == MultiWriter(env, cls)
    {
      if env.typeWriters.None? {
        return None;
      }
      var ws := env.typeWriters.value;
      var i := 0;
      while i < |ws|
        invariant 0 <= i <= |ws|
        invariant forall j :: 0 <= j < i ==> cls !in ws[j].writable
      {
        if cls in ws[i].writable {
          assert FirstWritable(ws, cls) == i;
          return Some(ws[i]);
        }
        i := i + 1;
      }
      assert FirstWritable(ws, cls) == |ws|;
      return None;
    }

    /** The loop over `INTERFACE_WRITERS`: the first interface `cls` is assignable to. */
    method FindInterface(ifaces: set<Iface>) returns (i: Option<Iface>)
      ensures i == FirstIface(ifaces)
    {
      var k := 0;
      while k < |InterfaceOrder|
        invariant 0 <= k <= |InterfaceOrder|
        invariant forall j :: 0 <= j < k ==> InterfaceOrder[j] !in ifaces
      {
        if InterfaceOrder[k] in ifaces {
          assert FirstIn(InterfaceOrder, ifaces) == k;
          return Some(InterfaceOrder[k]);
        }
        k := k + 1;
      }
      assert FirstIn(InterfaceOrder, ifaces) == |InterfaceOrder|;
      return None;
    }

    /** `handleAutoCloseable(obj)`. */
    method HandleAutoCloseable(r: Ref) returns (err: Option<Error>)
      requires Valid() && r in env.heap
      modifies this
      ensures Valid() && guard == old(guard)
      ensures Emitted(old(generator.written), old(closed), AutoClose(env.heap[r], r), generator.written, closed, err)
    {
      var o := env.heap[r];
      assert generator.written + [] == generator.written;
      err := None;
      if o.closeable {
        closed := closed + [r];
        if o.closeFails {
          err := Some(CloseFailed);
        }
      } else {
        assert closed + [] == closed;
      }
    }

    /** `generator.write(x)` of one element of a primitive array. */
    method WritePrim(k: PrimKind, p: TbonReading.Prim)
      requires generator.Valid() && PrimOk(k, p)
      modifies generator, generator.buffer
      ensures generator.Valid() && generator.written == old(generator.written) + PrimBytes(k, p)
    {
      match p
      case PBoolean(z) => generator.WriteBoolean(z);
      case PShort(x) => generator.WriteShort(x);
      case PInt(x) => generator.WriteInt(x);
      case PLong(x) => generator.WriteLong(x);
      case PFloat(bits) => generator.WriteFloat(bits);
      case PDouble(bits) => generator.WriteDouble(bits);
      case PChar(c) => generator.WriteChar(c);
    }

    /** The `DEFAULT_WRITERS` entry of the value's class. */
    method WriteBuiltin(b: Builtin)
      requires generator.Valid() && BuiltinOk(b)
      modifies generator, generator.buffer
      ensures generator.Valid() && generator.written == old(generator.written) + BuiltinBytes(b)
    {
      if b.BPrimitiveArray? {
        WritePrimitiveArray(b.kind, b.elements);
        assert BuiltinBytes(b) == [PrimitiveArrayTag(b.kind)] + PrimsBytes(b.kind, b.elements) + EncodeEndArray();
      } else if b.BBigInteger? || b.BBigDecimal? || b.BBytes? || b.BString? {
        WritePayload(b);
      } else {
        WriteBoxed(b);
      }
    }

    /** The `DEFAULT_WRITERS` entries of `BigInteger`, `BigDecimal`, `byte[]` and `String`. */
    method WritePayload(b: Builtin)
      requires generator.Valid() && BuiltinOk(b)
      requires b.BBigInteger? || b.BBigDecimal? || b.BBytes? || b.BString?
      modifies generator, generator.buffer
      ensures generator.Valid() && generator.written == old(generator.written) + BuiltinBytes(b)
    {
      match b
      case BBigInteger(v) => generator.WriteBigInteger(v);
      case BBigDecimal(unscaled, scale) => generator.WriteDecimal(unscaled, scale);
      case BBytes(octets) => generator.WriteOctet(octets);
      case BString(utf8) => generator.WriteString(utf8);
    }

    /** The `DEFAULT_WRITERS` entries of the boxed primitive classes. */
    method WriteBoxed(b: Builtin)
      requires generator.Valid() && BuiltinOk(b)
      requires !(b.BBigInteger? || b.BBigDecimal? || b.BBytes? || b.BString? || b.BPrimitiveArray?)
      modifies generator, generator.buffer
      ensures generator.Valid() && generator.written == old(generator.written) + BuiltinBytes(b)
    {
      match b
      case BBoolean(z) => generator.WriteBoolean(z);
      case BByte(x) => generator.WriteByte(x);
      case BShort(x) => generator.WriteShort(x);
      case BInt(x) => generator.WriteInt(x);
      case BLong(x) => generator.WriteLong(x);
      case BFloat(bits) => generator.WriteFloat(bits);
      case BDouble(bits) => generator.WriteDouble(bits);
      case BChar(c) => generator.WriteChar(c);
    }

    /** The `DEFAULT_WRITERS` entry of an array of primitives: the kind's tag, the elements, the end. */
    method WritePrimitiveArray(k: PrimKind, es: seq<TbonReading.Prim>)
      requires generator.Valid() && |es| < Two31 && forall i :: 0 <= i < |es| ==> PrimOk(k, es[i])
      modifies generator, generator.buffer
      ensures generator.Valid()
      ensures generator.written == old(generator.written) + ([PrimitiveArrayTag(k)] + PrimsBytes(k, es) + EncodeEndArray())
    {
      var o := generator.WriteStartPrimitiveArray(Primitive(k), |es|);
      ghost var head := generator.written;
      assert head == old(generator.written) + [PrimitiveArrayTag(k)];
      var i := 0;
      while i < |es|
        invariant 0 <= i <= |es| && generator.Valid()
        invariant generator.written == head + PrimsBytes(k, es[..i])
      {
        WritePrim(k, es[i]);
        PrimsSnoc(k, es, i);
        Assoc(head, PrimsBytes(k, es[..i]), PrimBytes(k, es[i]));
        i := i + 1;
      }
      assert es[..i] == es;
      generator.WriteEndArray();
      Assoc(old(generator.written) + [PrimitiveArrayTag(k)], PrimsBytes(k, es), EncodeEndArray());
      Assoc(old(generator.written), [PrimitiveArrayTag(k)], PrimsBytes(k, es));
      Assoc(old(generator.written), [PrimitiveArrayTag(k)] + PrimsBytes(k, es), EncodeEndArray());
    }

    /** `close()`: the generator sends everything written. */
    method Close()
      requires Valid()
      modifies generator
      ensures generator.Valid() && generator.sent == old(generator.written)
    {
      generator.Close();
    }

    /**
     * `writeObject(obj)`: `null` for a null reference or an object equal to one on the guard;
     * otherwise push, dispatch, and pop in `finally`, so the guard is as it was whether the
     * write ends normally or with an exception.
     */
    method WriteObject(o: Option<Ref>) returns (err: Option<Error>)
      requires Valid() && Refers(env.heap, o)
      modifies this, generator, generator.buffer
      ensures Valid() && guard == old(guard)
      ensures Emitted(old(generator.written), old(closed), Write(env, old(guard), o), generator.written, closed, err)
      decreases Room(env, guard), 0, 1
    {
      var seen := false;
      if o.Some? {
        seen := GuardContains(o.value);
      }
      if o.None? || seen {
        generator.WriteNull();
        assert closed + [] == closed;
        return None;
      }
      err := WritePushed(o.value);
    }

    /** The `try` with its `finally`: push `r`, dispatch, pop. */
    method WritePushed(r: Ref) returns (err: Option<Error>)
      requires Valid() && r in env.heap && !InGuard(env, guard, r)
      modifies this, generator, generator.buffer
      ensures Valid() && guard == old(guard)
      ensures Emitted(old(generator.written), old(closed), Dispatch(env, [r] + old(guard), r), generator.written, closed, err)
      decreases Room(env, guard), 0, 0
    {
      Pushed(env, guard, r);
      guard := [r] + guard;
      err := DispatchObject(r);
      guard := guard[1..];
    }

    /** The body of the `try`: the writer search, with `r` on top of the guard. */
    method DispatchObject(r: Ref) returns (err: Option<Error>)
      requires Valid() && r in env.heap && |guard| > 0 && guard[0] == r
      requires !(env.heap[r].eqClass in GuardLabels(env, guard[1..]))
      modifies this, generator, generator.buffer
      ensures Valid() && guard == old(guard)
      ensures Emitted(old(generator.written), old(closed), Dispatch(env, old(guard), r), generator.written, closed, err)
      decreases Room(env, guard), 3, 0
    {
      var o := env.heap[r];
      ghost var w0 := generator.written;
      var w := ExplicitWriter(env, o.cls);
      if w.None? {
        w := FindMultiWriter(o.cls);
      }
      if w.Some? {
        var bytes := env.userOutput(w.value.id, r);
        generator.WriteOctetBytes(bytes);
        err := HandleAutoCloseable(r);
        EmittedAfter(w0, old(closed), bytes, AutoClose(o, r), generator.written, closed, err);
        return;
      }
      if o.builtin.Some? {
        WriteBuiltin(o.builtin.value);
        assert closed + [] == closed;
        return None;
      }
      var iface := FindInterface(o.ifaces);
      if iface.Some? {
        err := WriteInterface(r, iface.value);
        if err.None? {
          ghost var t := IfaceWrite(env, guard, r, iface.value);
          ghost var w1, c1 := generator.written, closed;
          err := HandleAutoCloseable(r);
          assert Applied(w0, old(closed), Then(t, AutoClose(o, r)))
              == Applied(w1, c1, AutoClose(o, r)) by {
            AppliedThen(w0, old(closed), t, AutoClose(o, r));
          }
        }
        return;
      }
      if o.isArray {
        err := WriteList(r);
      } else {
        err := WritePojo(r);
      }
    }

    /** The `INTERFACE_WRITERS` entry for `i`. */
    method WriteInterface(r: Ref, i: Iface) returns (err: Option<Error>)
      requires Valid() && r in env.heap
      modifies this, generator, generator.buffer
      ensures Valid() && guard == old(guard)
      ensures Emitted(old(generator.written), old(closed), IfaceWrite(env, old(guard), r, i), generator.written, closed, err)
      decreases Room(env, guard), 2, 1
    {
      var o := env.heap[r];
      match i
      case MapIface => err := WriteMap(r);
      case CollectionIface => err := WriteList(r);
      case DateIface =>
        var c := o.calendar;
        generator.WriteCalendar(c.year, c.dayOfYear, c.hourOfDay, c.minute, c.second, c.millisecond);
        err := None;
      case CalendarIface =>
        var c := o.calendar;
        generator.WriteCalendar(c.year, c.dayOfYear, c.hourOfDay, c.minute, c.second, c.millisecond);
        err := None;
      case IterableIface => err := WriteIterable(r);
      case InputStreamIface =>
        generator.WriteOctetBytes(o.streamed);
        err := None;
      case ChannelIface =>
        generator.WriteOctetBytes(o.streamed);
        err := None;
      case ByteBufferIface =>
        generator.WriteOctet(o.octets);
        err := None;
    }

    /** `writeStartObject(map.size())`, each entry, `writeEndObject()`. */
    method WriteMap(r: Ref) returns (err: Option<Error>)
      requires Valid() && r in env.heap
      modifies this, generator, generator.buffer
      ensures Valid() && guard == old(guard)
      ensures Emitted(old(generator.written), old(closed), MapWrite(env, old(guard), r), generator.written, closed, err)
      decreases Room(env, guard), 2, 0
    {
      var o := env.heap[r];
      ghost var w0 := generator.written;
      generator.WriteStartObjectCount(|o.entries|);
      err := WriteEntries(o.entries);
      FramedSteps(w0, old(closed), EncodeStartObjectCount(|o.entries|), Entries(env, guard, o.entries, 0),
                  EncodeEndObject(), generator.written, closed, err);
      if err.None? {
        generator.WriteEndObject();
      }
    }

    /** `writeStartArray(length)`, each element, `writeEndArray()`: collections and arrays of objects. */
    method WriteList(r: Ref) returns (err: Option<Error>)
      requires Valid() && r in env.heap
      modifies this, generator, generator.buffer
      ensures Valid() && guard == old(guard)
      ensures Emitted(old(generator.written), old(closed), ListWrite(env, old(guard), r), generator.written, closed, err)
      decreases Room(env, guard), 2, 0
    {
      var o := env.heap[r];
      ghost var w0 := generator.written;
      generator.WriteStartArrayCount(|o.elements|);
      err := WriteElements(o.elements);
      FramedSteps(w0, old(closed), EncodeStartArrayCount(|o.elements|), Elems(env, guard, o.elements, 0),
                  EncodeEndArray(), generator.written, closed, err);
      if err.None? {
        generator.WriteEndArray();
      }
    }

    /** `writeStartArray()`, each element, `writeEndArray()`. */
    method WriteIterable(r: Ref) returns (err: Option<Error>)
      requires Valid() && r in env.heap
      modifies this, generator, generator.buffer
      ensures Valid() && guard == old(guard)
      ensures Emitted(old(generator.written), old(closed), IterableWrite(env, old(guard), r), generator.written, closed, err)
      decreases Room(env, guard), 2, 0
    {
      var o := env.heap[r];
      ghost var w0 := generator.written;
      generator.WriteStartArray();
      err := WriteElements(o.elements);
      FramedSteps(w0, old(closed), EncodeStartArray(), Elems(env, guard, o.elements, 0),
                  EncodeEndArray(), generator.written, closed, err);
      if err.None? {
        generator.WriteEndArray();
      }
    }

    /** The POJO branch, with the property map taken as given. */
    method WritePojo(r: Ref) returns (err: Option<Error>)
      requires Valid() && r in env.heap
      modifies this, generator, generator.buffer
      ensures Valid() && guard == old(guard)
      ensures Emitted(old(generator.written), old(closed), PojoWrite(env, old(guard), r), generator.written, closed, err)
      decreases Room(env, guard), 2, 0
    {
      var o := env.heap[r];
      if o.isObjectClass {
        assert generator.written + [] == generator.written && closed + [] == closed;
        return Some(NullPointer);
      }
      ghost var w0 := generator.written;
      var outcome := generator.WriteCustomType(o.cls);
      if outcome.Fail? {
        assert generator.written + [] == generator.written && closed + [] == closed;
        return Some(outcome.error);
      }
      ghost var head := EncodeCustomType(o.cls).value;
      generator.WriteStartObjectCount(|o.properties|);
      Assoc(w0, head, EncodeStartObjectCount(|o.properties|));
      err := WriteProperties(o.properties);
      FramedSteps(w0, old(closed), head + EncodeStartObjectCount(|o.properties|), Props(env, guard, o.properties, 0),
                  EncodeEndObject(), generator.written, closed, err);
      if err.None? {
        generator.WriteEndObject();
      }
    }

    /** `writeObject` of each element in turn, stopping at the first exception. */
    method WriteElements(es: seq<Option<Ref>>) returns (err: Option<Error>)
      requires Valid() && AllRefer(env.heap, es)
      modifies this, generator, generator.buffer
      ensures Valid() && guard == old(guard)
      ensures Emitted(old(generator.written), old(closed), Elems(env, old(guard), es, 0), generator.written, closed, err)
      decreases Room(env, guard), 1, 0
    {
      ghost var all := Applied(generator.written, closed, Elems(env, guard, es, 0));
      var i := 0;
      while i < |es|
        invariant 0 <= i <= |es| && Valid() && guard == old(guard)
        invariant all == Applied(generator.written, closed, Elems(env, guard, es, i))
      {
        ghost var w0, c0 := generator.written, closed;
        err := WriteObject(es[i]);
        ElemsStep(env, guard, es, i, w0, c0, generator.written, closed, err);
        if err.Some? {
          return;
        }
        i := i + 1;
      }
      AppliedDone(generator.written, closed);
      return None;
    }

    /** `write(name)`, then `writeObject(value)`: one map entry or one property. */
    method WriteNamed(name: seq<byte>, value: Option<Ref>) returns (err: Option<Error>)
      requires Valid() && |name| < Two31 && Refers(env.heap, value)
      modifies this, generator, generator.buffer
      ensures Valid() && guard == old(guard)
      ensures Emitted(old(generator.written) + EncodeString(name), old(closed), Write(env, old(guard), value),
                      generator.written, closed, err)
      decreases Room(env, guard), 0, 2
    {
      generator.WriteString(name);
      err := WriteObject(value);
    }

    /** Each entry: `write(key.toString())`, then `writeObject(value)`. */
    method WriteEntries(es: seq<(Option<seq<byte>>, Option<Ref>)>) returns (err: Option<Error>)
      requires Valid()
      requires forall j :: 0 <= j < |es| ==> Refers(env.heap, es[j].1) && (es[j].0.Some? ==> |es[j].0.value| < Two31)
      modifies this, generator, generator.buffer
      ensures Valid() && guard == old(guard)
      ensures Emitted(old(generator.written), old(closed), Entries(env, old(guard), es, 0), generator.written, closed, err)
      decreases Room(env, guard), 1, 0
    {
      ghost var all := Applied(generator.written, closed, Entries(env, guard, es, 0));
      var i := 0;
      while i < |es|
        invariant 0 <= i <= |es| && Valid() && guard == old(guard)
        invariant all == Applied(generator.written, closed, Entries(env, guard, es, i))
      {
        var (key, value) := es[i];
        if key.None? {
          assert generator.written + [] == generator.written && closed + [] == closed;
          return Some(NullPointer);
        }
        ghost var w0, c0 := generator.written, closed;
        err := WriteNamed(key.value, value);
        EntriesStep(env, guard, es, i, w0, c0, generator.written, closed, err);
        if err.Some? {
          return;
        }
        i := i + 1;
      }
      AppliedDone(generator.written, closed);
      return None;
    }

    /** Each property: `write(name)`, then `writeObject` of its value. */
    method WriteProperties(ps: seq<(seq<byte>, Option<Ref>)>) returns (err: Option<Error>)
      requires Valid()
      requires forall j :: 0 <= j < |ps| ==> Refers(env.heap, ps[j].1) && |ps[j].0| < Two31
      modifies this, generator, generator.buffer
      ensures Valid() && guard == old(guard)
      ensures Emitted(old(generator.written), old(closed), Props(env, old(guard), ps, 0), generator.written, closed, err)
      decreases Room(env, guard), 1, 0
    {
      ghost var all := Applied(generator.written, closed, Props(env, guard, ps, 0));
      var i := 0;
      while i < |ps|
        invariant 0 <= i <= |ps| && Valid() && guard == old(guard)
        invariant all == Applied(generator.written, closed, Props(env, guard, ps, i))
      {
        var (name, value) := ps[i];
        ghost var w0, c0 := generator.written, closed;
        err := WriteNamed(name, value);
        PropsStep(env, guard, ps, i, w0, c0, generator.written, closed, err);
        if err.Some? {
          return;
        }
        i := i + 1;
      }
      AppliedDone(generator.written, closed);
      return None;
    }
  }
}
