/**
 * What `writeObject` promises, stated over its trace: cycles end in `null`, the writer
 * search keeps its order, `handleAutoCloseable` runs only where the writer calls it, and
 * maps and plain objects are written entry by entry.
 */
module TbonWritingFacts {
  import opened JavaTypes
  import opened SteakEncoding
  import opened TypeHandlers
  import opened TbonWriting

  // ---------------------------------------------------------------- null and the guard

  /**
   * A null reference, or an object equal to one on the guard (whether or not it is the same
   * object), is written as exactly one `null` and nothing is closed.
   */
  lemma NullOrEqualWritesNull(e: Env, g: seq<Ref>, o: Option<Ref>, i: nat)
    requires WellFormed(e) && GuardIn(e, g) && Refers(e.heap, o)
    requires o.Some? ==> i < |g| && e.heap[g[i]].eqClass == e.heap[o.value].eqClass
    ensures Write(e, g, o) == Done(EncodeNull(), [])
  {
    if o.Some? {
      assert e.heap[o.value].eqClass in GuardLabels(e, g);
    }
  }

  /**
   * A collection that holds itself: the inner occurrence is on the guard, so it is written
   * as `null` and the write ends.
   */
  lemma SelfContainingCollection(e: Env, g: seq<Ref>, r: Ref)
    requires WellFormed(e) && GuardIn(e, g) && r in e.heap && !InGuard(e, g, r)
    requires var o := e.heap[r];
      && ExplicitWriter(e, o.cls).None? && MultiWriter(e, o.cls).None? && o.builtin.None?
      && CollectionIface in o.ifaces && MapIface !in o.ifaces
      && o.elements == [Some(r)] && !o.closeable
    ensures Write(e, g, Some(r)) == Done(EncodeStartArrayCount(1) + EncodeNull() + EncodeEndArray(), [])
  {
    var o := e.heap[r];
    var g' := [r] + g;
    WriteFresh(e, g, r);
    PushLabels(e, g, r);
    CollectionBeforeIterable(o.ifaces);
    DispatchOfIface(e, g', r);
    NullOrEqualWritesNull(e, g', Some(r), 0);
    ElemsOfOne(e, g', Some(r));
    FramedNull(EncodeStartArrayCount(1), EncodeNull(), EncodeEndArray());
  }

  /** An object not on the guard is pushed and dispatched. */
  lemma WriteFresh(e: Env, g: seq<Ref>, r: Ref)
    requires WellFormed(e) && GuardIn(e, g) && r in e.heap && !InGuard(e, g, r)
    ensures var p := [r] + g;
      && GuardIn(e, p) && |p| > 0 && p[0] == r && p[1..] == g
      && !(e.heap[r].eqClass in GuardLabels(e, p[1..]))
      && Write(e, g, Some(r)) == Dispatch(e, p, r)
  {
    Pushed(e, g, r);
  }

  /** With no registered writer and no built-in one, the first interface writes, then the close. */
  lemma DispatchOfIface(e: Env, g: seq<Ref>, r: Ref)
    requires WellFormed(e) && GuardIn(e, g) && r in e.heap && |g| > 0 && g[0] == r
    requires !(e.heap[r].eqClass in GuardLabels(e, g[1..]))
    requires ExplicitWriter(e, e.heap[r].cls).None? && MultiWriter(e, e.heap[r].cls).None?
    requires e.heap[r].builtin.None? && FirstIface(e.heap[r].ifaces).Some?
    ensures Dispatch(e, g, r) == Then(IfaceWrite(e, g, r, FirstIface(e.heap[r].ifaces).value), AutoClose(e.heap[r], r))
  {
  }

  /** A single element is written as `writeObject` writes it. */
  lemma ElemsOfOne(e: Env, g: seq<Ref>, x: Option<Ref>)
    requires WellFormed(e) && GuardIn(e, g) && Refers(e.heap, x)
    ensures AllRefer(e.heap, [x]) && Elems(e, g, [x], 0) == Then(Write(e, g, x), Done([], []))
  {
    assert Elems(e, g, [x], 1) == Done([], []);
  }

  /** A framed `null` that is not closed. */
  lemma FramedNull(start: seq<byte>, value: seq<byte>, end: seq<byte>)
    ensures Then(Framed(start, Then(Done(value, []), Done([], [])), end), Done([], []))
         == Done(start + value + end, [])
  {
    assert value + [] == value;
    assert start + value + end + [] == start + value + end;
  }

  // ---------------------------------------------------------------- the writer search

  /**
   * `INTERFACE_WRITERS` is searched in insertion order, so an object that is a `Collection`
   * and not a `Map` takes the sized-array form, never the `Iterable` one; the `Iterable`
   * form is taken only by objects that are none of `Map`, `Collection`, `Date`, `Calendar`.
   */
  lemma CollectionBeforeIterable(ifaces: set<Iface>)
    ensures CollectionIface in ifaces && MapIface !in ifaces ==> FirstIface(ifaces) == Some(CollectionIface)
    ensures FirstIface(ifaces) == Some(IterableIface) ==>
      MapIface !in ifaces && CollectionIface !in ifaces && DateIface !in ifaces && CalendarIface !in ifaces
  {
    var k := FirstIn(InterfaceOrder, ifaces);
    assert InterfaceOrder[0] == MapIface && InterfaceOrder[1] == CollectionIface;
    assert InterfaceOrder[2] == DateIface && InterfaceOrder[3] == CalendarIface;
    assert InterfaceOrder[4] == IterableIface;
    if FirstIface(ifaces) == Some(IterableIface) {
      assert k == 4;
    }
  }

  /** Replacing everything of an object but its class and its `AutoCloseable` behaviour. */
  predicate SameHead(a: Obj, b: Obj)
  {
    a.cls == b.cls && a.eqClass == b.eqClass && a.closeable == b.closeable && a.closeFails == b.closeFails
  }

  /**
   * The writer a class is registered with comes first: with an explicit or multi-type
   * writer for its class, what the object is otherwise (a boxed value, a collection, an
   * array, a plain object) changes nothing in how it is written.
   */
  lemma RegisteredWriterFirst(e: Env, g: seq<Ref>, r: Ref, other: Obj)
    requires WellFormed(e) && GuardIn(e, g) && r in e.heap && |g| > 0 && g[0] == r
    requires !(e.heap[r].eqClass in GuardLabels(e, g[1..]))
    requires ExplicitWriter(e, e.heap[r].cls).Some? || MultiWriter(e, e.heap[r].cls).Some?
    requires SameHead(e.heap[r], other) && WellFormed(e.(heap := e.heap[r := other]))
    ensures var e' := e.(heap := e.heap[r := other]);
      GuardIn(e', g) && Dispatch(e, g, r) == Dispatch(e', g, r)
    ensures var w := if ExplicitWriter(e, e.heap[r].cls).Some? then ExplicitWriter(e, e.heap[r].cls)
                     else MultiWriter(e, e.heap[r].cls);
      Dispatch(e, g, r) == Then(Done(e.userOutput(w.value.id, r), []), AutoClose(e.heap[r], r))
  {
    var e' := e.(heap := e.heap[r := other]);
    assert GuardIn(e', g);
    assert GuardLabels(e', g[1..]) == GuardLabels(e, g[1..]) by {
      forall i | 0 <= i < |g[1..]| ensures e'.heap[g[1..][i]].eqClass == e.heap[g[1..][i]].eqClass {
      }
    }
  }

  /**
   * The `DEFAULT_WRITERS` of exact classes come before the interfaces, arrays and plain
   * objects, and are not followed by `handleAutoCloseable`: nothing is closed.
   */
  lemma BuiltinNeverCloses(e: Env, g: seq<Ref>, r: Ref)
    requires WellFormed(e) && GuardIn(e, g) && r in e.heap && |g| > 0 && g[0] == r
    requires !(e.heap[r].eqClass in GuardLabels(e, g[1..]))
    requires ExplicitWriter(e, e.heap[r].cls).None? && MultiWriter(e, e.heap[r].cls).None?
    requires e.heap[r].builtin.Some?
    ensures Dispatch(e, g, r) == Done(BuiltinBytes(e.heap[r].builtin.value), [])
  {
  }

  /**
   * The array and plain-object branches do not call `handleAutoCloseable`: the object is
   * not closed, even when it is `AutoCloseable`, since every object the nested writes
   * close is one the guard does not hold.
   */
  lemma {:induction false} ArrayOrPojoDoesNotClose(e: Env, g: seq<Ref>, r: Ref)
    requires WellFormed(e) && GuardIn(e, g) && r in e.heap && |g| > 0 && g[0] == r
    requires !(e.heap[r].eqClass in GuardLabels(e, g[1..]))
    requires ExplicitWriter(e, e.heap[r].cls).None? && MultiWriter(e, e.heap[r].cls).None?
    requires e.heap[r].builtin.None? && FirstIface(e.heap[r].ifaces).None?
    ensures r !in Dispatch(e, g, r).closed
  {
    var t := Dispatch(e, g, r);
    var o := e.heap[r];
    assert t == if o.isArray then ListWrite(e, g, r) else PojoWrite(e, g, r);
    assert o.eqClass in GuardLabels(e, g);
  }

  /**
   * After an interface writer that ends normally, an `AutoCloseable` object is closed, last;
   * a `close` that throws ends the write with an `IOException`.
   */
  lemma {:induction false} InterfaceThenClose(e: Env, g: seq<Ref>, r: Ref)
    requires WellFormed(e) && GuardIn(e, g) && r in e.heap && |g| > 0 && g[0] == r
    requires !(e.heap[r].eqClass in GuardLabels(e, g[1..]))
    requires ExplicitWriter(e, e.heap[r].cls).None? && MultiWriter(e, e.heap[r].cls).None?
    requires e.heap[r].builtin.None? && FirstIface(e.heap[r].ifaces).Some?
    requires IfaceWrite(e, g, r, FirstIface(e.heap[r].ifaces).value).err.None?
    requires e.heap[r].closeable
    ensures var t := Dispatch(e, g, r);
      |t.closed| > 0 && t.closed[|t.closed| - 1] == r
      && (t.err.Some? <==> e.heap[r].closeFails)
  {
    var o := e.heap[r];
    var body := IfaceWrite(e, g, r, FirstIface(o.ifaces).value);
    assert Dispatch(e, g, r) == Then(body, AutoClose(o, r));
  }

  // ---------------------------------------------------------------- entries and properties

  /** Each key as a string followed by `null`, from entry `i` up to entry `j`. */
  function KeyNulls(es: seq<(Option<seq<byte>>, Option<Ref>)>, i: nat, j: nat): seq<byte>
    requires i <= j <= |es|
    requires forall k :: i <= k < j ==> es[k].0.Some? && |es[k].0.value| < Two31
    decreases j - i
  {
    if i == j then [] else EncodeString(es[i].0.value) + EncodeNull() + KeyNulls(es, i + 1, j)
  }

  /** `writeObject(null)` writes `null` and nothing else. */
  lemma WriteNone(e: Env, g: seq<Ref>)
    requires WellFormed(e) && GuardIn(e, g)
    ensures Write(e, g, None) == Done(EncodeNull(), [])
  {
  }

  /** A name and a value that end normally and close nothing, then the rest. */
  lemma NamedNull(name: seq<byte>, value: seq<byte>, rest: Trace)
    ensures Then(Done(name, []), Then(Done(value, []), rest)) == Trace(name + value + rest.out, rest.closed, rest.err)
  {
    assert name + (value + rest.out) == name + value + rest.out;
  }

  /**
   * A map whose values are all `null` is written key, `null`, key, `null`, ... in its
   * iteration order; a `null` key throws `NullPointerException` from `toString()` after
   * the entries before it are written.
   */
  lemma {:induction false} NullValuedEntries(e: Env, g: seq<Ref>, es: seq<(Option<seq<byte>>, Option<Ref>)>, i: nat, j: nat)
    requires WellFormed(e) && GuardIn(e, g) && i <= j <= |es|
    requires forall k :: 0 <= k < |es| ==> es[k].1.None? && (es[k].0.Some? ==> |es[k].0.value| < Two31)
    requires forall k :: i <= k < j ==> es[k].0.Some?
    requires j == |es| || es[j].0.None?
    ensures Entries(e, g, es, i)
         == Trace(KeyNulls(es, i, j), [], if j == |es| then None else Some(NullPointer))
    decreases j - i
  {
    if i < j {
      NullValuedEntries(e, g, es, i + 1, j);
      WriteNone(e, g);
      NamedNull(EncodeString(es[i].0.value), EncodeNull(), Entries(e, g, es, i + 1));
    }
  }

  /** The names and `null` values of properties `i` up to the end. */
  function NameNulls(ps: seq<(seq<byte>, Option<Ref>)>, i: nat): seq<byte>
    requires i <= |ps|
    requires forall k :: 0 <= k < |ps| ==> |ps[k].0| < Two31
    decreases |ps| - i
  {
    if i == |ps| then [] else EncodeString(ps[i].0) + EncodeNull() + NameNulls(ps, i + 1)
  }

  /** Properties with `null` values are written name, `null`, name, `null`, ... */
  lemma {:induction false} NullValuedProps(e: Env, g: seq<Ref>, ps: seq<(seq<byte>, Option<Ref>)>, i: nat)
    requires WellFormed(e) && GuardIn(e, g) && i <= |ps|
    requires forall k :: 0 <= k < |ps| ==> ps[k].1.None? && |ps[k].0| < Two31
    ensures Props(e, g, ps, i) == Done(NameNulls(ps, i), [])
    decreases |ps| - i
  {
    if i < |ps| {
      NullValuedProps(e, g, ps, i + 1);
      WriteNone(e, g);
      NamedNull(EncodeString(ps[i].0), EncodeNull(), Props(e, g, ps, i + 1));
    }
  }

  /**
   * A plain object whose properties are all `null`: its class name as a custom type, the
   * number of properties, each name with `null`, the end of the object.
   */
  lemma PojoOfNullProperties(e: Env, g: seq<Ref>, r: Ref)
    requires WellFormed(e) && GuardIn(e, g) && r in e.heap
    requires !e.heap[r].isObjectClass && |e.heap[r].cls| > 0
    requires forall k :: 0 <= k < |e.heap[r].properties| ==> e.heap[r].properties[k].1.None?
    ensures var o := e.heap[r];
      PojoWrite(e, g, r)
      == Done(EncodeCustomType(o.cls).value + EncodeStartObjectCount(|o.properties|)
              + NameNulls(o.properties, 0) + EncodeEndObject(), [])
  {
    NullValuedProps(e, g, e.heap[r].properties, 0);
  }

  /** `java.lang.Object` itself has no getters to find: the search throws before anything is written. */
  lemma ObjectClassThrows(e: Env, g: seq<Ref>, r: Ref)
    requires WellFormed(e) && GuardIn(e, g) && r in e.heap && e.heap[r].isObjectClass
    ensures PojoWrite(e, g, r) == Trace([], [], Some(NullPointer))
  {
  }
}
