/**
 * `TypeHandlerRegistryImpl`: the registry of user type readers and writers that the mapper
 * consults. Readers are kept in registration order, with a name-to-reader map for the
 * explicit ones; writers are kept in registration order, and the explicit ones are arranged
 * into a class-to-writer map in which every class comes before the classes it is assignable
 * to, so that a lookup finds the most specific handler first.
 *
 * Whether one class is assignable from another (`Class.isAssignableFrom`) is a parameter of
 * the registry: a relation that is only required to be reflexive and transitive.
 */
module TypeHandlers {
  import opened JavaTypes
  import opened LinkedMaps

  /** A class, by its name as UTF-8 bytes. */
  type Class = seq<byte>

  /** `assignable(a, b)`: class `a` is assignable from class `b` (b is a subtype of a). */
  type Assignable = (Class, Class) -> bool

  ghost predicate Reflexive(assignable: Assignable)
  {
    forall a :: assignable(a, a)
  }

  ghost predicate Transitive(assignable: Assignable)
  {
    forall a, b, c :: assignable(a, b) && assignable(b, c) ==> assignable(a, c)
  }

  /**
   * A registered `TypeReader`: `canRead(name)` holds for the names in `readable`; an
   * `ExplicitTypeReader` also lists its `typeNames()`.
   */
  datatype Reader = Reader(id: nat, typeNames: Option<seq<seq<byte>>>, readable: set<seq<byte>>)

  /**
   * A registered `TypeWriter`: `canWrite(obj)` holds for objects of the classes in
   * `writable`; an `ExplicitTypeWriter` also has its `typeClass()`.
   */
  datatype Writer = Writer(id: nat, typeClass: Option<Class>, writable: set<Class>)

  /** An explicit writer with its class. */
  type Entry = (Class, Writer)

  // ---------------------------------------------------------------- the reader map

  predicate Declares(r: Reader, name: seq<byte>)
  {
    r.typeNames.Some? && name in r.typeNames.value
  }

  /** The names of one explicit reader put into the map, in order. */
  function PutNames(m: map<seq<byte>, Reader>, r: Reader, names: seq<seq<byte>>): map<seq<byte>, Reader>
  {
    if |names| == 0 then m else PutNames(m, r, names[..|names| - 1])[names[|names| - 1] := r]
  }

  /** The reader map after registering `rs` onto `m`. */
  function NameMap(m: map<seq<byte>, Reader>, rs: seq<Reader>): map<seq<byte>, Reader>
  {
    if |rs| == 0 then m
    else
      var before := NameMap(m, rs[..|rs| - 1]);
      var r := rs[|rs| - 1];
      if r.typeNames.Some? then PutNames(before, r, r.typeNames.value) else before
  }

  lemma {:induction false} PutNamesLookup(m: map<seq<byte>, Reader>, r: Reader, names: seq<seq<byte>>,
                                          n: seq<byte>)
    ensures n in names ==> n in PutNames(m, r, names) && PutNames(m, r, names)[n] == r
    ensures n !in names ==> (n in PutNames(m, r, names) <==> n in m)
    ensures n !in names && n in m ==> PutNames(m, r, names)[n] == m[n]
  {
    if |names| > 0 {
      var init := names[..|names| - 1];
      assert names == init + [names[|names| - 1]];
      PutNamesLookup(m, r, init, n);
    }
  }

  /** A name maps to the last registered explicit reader that declares it. */
  lemma {:induction false} NameMapLast(m: map<seq<byte>, Reader>, rs: seq<Reader>, i: nat, n: seq<byte>)
    requires i < |rs| && Declares(rs[i], n)
    requires forall j :: i < j < |rs| ==> !Declares(rs[j], n)
    ensures n in NameMap(m, rs) && NameMap(m, rs)[n] == rs[i]
  {
    var init := rs[..|rs| - 1];
    var r := rs[|rs| - 1];
    if r.typeNames.Some? {
      PutNamesLookup(NameMap(m, init), r, r.typeNames.value, n);
    }
    if i < |rs| - 1 {
      assert init[i] == rs[i];
      assert forall j :: i < j < |init| ==> init[j] == rs[j];
      NameMapLast(m, init, i, n);
    }
  }

  /** A name that no registered reader declares keeps what the map had. */
  lemma {:induction false} NameMapUndeclared(m: map<seq<byte>, Reader>, rs: seq<Reader>, n: seq<byte>)
    requires forall i :: 0 <= i < |rs| ==> !Declares(rs[i], n)
    ensures n in NameMap(m, rs) <==> n in m
    ensures n in m ==> NameMap(m, rs)[n] == m[n]
  {
    if |rs| > 0 {
      var init := rs[..|rs| - 1];
      var r := rs[|rs| - 1];
      assert forall i :: 0 <= i < |init| ==> init[i] == rs[i];
      NameMapUndeclared(m, init, n);
      if r.typeNames.Some? {
        PutNamesLookup(NameMap(m, init), r, r.typeNames.value, n);
      }
    }
  }

  // ---------------------------------------------------------------- the writer order

  /** The explicit writers among `ws`, in registration order, with their classes. */
  function Explicit(ws: seq<Writer>): (es: seq<Entry>)
    ensures forall e :: e in es ==> e.1 in ws && e.1.typeClass == Some(e.0)
  {
    if |ws| == 0 then []
    else
      var init := Explicit(ws[..|ws| - 1]);
      var w := ws[|ws| - 1];
      if w.typeClass.Some? then init + [(w.typeClass.value, w)] else init
  }

  /** The classes of a list of entries. */
  function Classes(es: seq<Entry>): (cs: seq<Class>)
    ensures |cs| == |es| && forall i :: 0 <= i < |es| ==> cs[i] == es[i].0
  {
    seq(|es|, i requires 0 <= i < |es| => es[i].0)
  }

  /** No class comes after a class that it is assignable to, unless the two are mutually assignable. */
  predicate SubtypesFirst(assignable: Assignable, cs: seq<Class>)
  {
    forall i, j :: 0 <= i < j < |cs| && assignable(cs[i], cs[j]) ==> assignable(cs[j], cs[i])
  }

  /** The list iterator's insertion: before the first entry assignable from `e`'s class, else last. */
  function Insert(assignable: Assignable, es: seq<Entry>, e: Entry): (r: seq<Entry>)
    ensures |r| == |es| + 1
  {
    if |es| == 0 then [e]
    else if assignable(es[0].0, e.0) then [e] + es
    else [es[0]] + Insert(assignable, es[1..], e)
  }

  /** The `LinkedList` that `explicitTypeWriterMap()` builds from the registered writers. */
  function Ordered(assignable: Assignable, ws: seq<Writer>): (es: seq<Entry>)
  {
    if |ws| == 0 then []
    else
      var init := Ordered(assignable, ws[..|ws| - 1]);
      var w := ws[|ws| - 1];
      if w.typeClass.Some? then Insert(assignable, init, (w.typeClass.value, w)) else init
  }

  /** The `LinkedHashMap` filled from the ordered list. */
  function MapOf(es: seq<Entry>): LinkedMap<Class, Writer>
  {
    if |es| == 0 then Empty()
    else Put(MapOf(es[..|es| - 1]), es[|es| - 1].0, es[|es| - 1].1)
  }

  /** The explicit writer map for the registered writers `ws`. */
  function WriterMap(assignable: Assignable, ws: seq<Writer>): LinkedMap<Class, Writer>
  {
    MapOf(Ordered(assignable, ws))
  }

  /** `Insert` puts `e` at the first index whose class is assignable from its own. */
  lemma {:induction false} InsertAt(assignable: Assignable, es: seq<Entry>, e: Entry, k: nat)
    requires k <= |es|
    requires forall j :: 0 <= j < k ==> !assignable(es[j].0, e.0)
    requires k < |es| ==> assignable(es[k].0, e.0)
    ensures Insert(assignable, es, e) == es[..k] + [e] + es[k..]
    decreases k
  {
    if k > 0 {
      InsertAt(assignable, es[1..], e, k - 1);
      assert es[..k] == [es[0]] + es[1..][..k - 1];
      assert es[k..] == es[1..][k - 1..];
    }
  }

  lemma {:induction false} InsertMultiset(assignable: Assignable, es: seq<Entry>, e: Entry)
    ensures multiset(Insert(assignable, es, e)) == multiset(es) + multiset{e}
    decreases |es|
  {
    if |es| > 0 && !assignable(es[0].0, e.0) {
      InsertMultiset(assignable, es[1..], e);
      assert es == [es[0]] + es[1..];
    }
  }

  /** The ordered list holds every explicit writer exactly once, and no other writer. */
  lemma {:induction false} OrderedIsPermutation(assignable: Assignable, ws: seq<Writer>)
    ensures multiset(Ordered(assignable, ws)) == multiset(Explicit(ws))
  {
    if |ws| > 0 {
      var init := ws[..|ws| - 1];
      var w := ws[|ws| - 1];
      OrderedIsPermutation(assignable, init);
      if w.typeClass.Some? {
        InsertMultiset(assignable, Ordered(assignable, init), (w.typeClass.value, w));
      }
    }
  }

  /** The first index with a class assignable from `c`, or the length when there is none. */
  function InsertionPoint(assignable: Assignable, es: seq<Entry>, c: Class): (k: nat)
    ensures k <= |es|
    ensures forall j :: 0 <= j < k ==> !assignable(es[j].0, c)
    ensures k < |es| ==> assignable(es[k].0, c)
    decreases |es|
  {
    if |es| == 0 then 0
    else if assignable(es[0].0, c) then 0
    else 1 + InsertionPoint(assignable, es[1..], c)
  }

  /** Inserting keeps subtypes before their supertypes, given a transitive `assignable`. */
  lemma InsertSubtypesFirst(assignable: Assignable, es: seq<Entry>, e: Entry)
    requires Transitive(assignable) && SubtypesFirst(assignable, Classes(es))
    ensures SubtypesFirst(assignable, Classes(Insert(assignable, es, e)))
  {
    var k := InsertionPoint(assignable, es, e.0);
    InsertAt(assignable, es, e, k);
    ClassesInsert(es, e, k);
    ClassAtInsertionPoint(assignable, es, e.0, k);
    InsertKeepsOrder(assignable, Classes(es), k, e.0);
  }

  lemma ClassAtInsertionPoint(assignable: Assignable, es: seq<Entry>, c: Class, k: nat)
    requires k == InsertionPoint(assignable, es, c)
    ensures var cs := Classes(es);
      && k <= |cs| && (forall j :: 0 <= j < k ==> !assignable(cs[j], c))
      && (k < |cs| ==> assignable(cs[k], c))
  {
  }

  lemma ClassesInsert(es: seq<Entry>, e: Entry, k: nat)
    requires k <= |es|
    ensures Classes(es[..k] + [e] + es[k..]) == Classes(es)[..k] + [e.0] + Classes(es)[k..]
  {
    var x, y := Classes(es[..k] + [e] + es[k..]), Classes(es)[..k] + [e.0] + Classes(es)[k..];
    assert |x| == |y|;
    forall i | 0 <= i < |x|
      ensures x[i] == y[i]
    {
      if i < k {
      } else if i == k {
      } else {
        assert x[i] == es[i - 1].0;
      }
    }
  }

  /**
   * A class placed before the first class assignable from it, in a list that has subtypes
   * first, leaves the list with subtypes first.
   */
  lemma InsertKeepsOrder(assignable: Assignable, cs: seq<Class>, k: nat, c: Class)
    requires Transitive(assignable) && SubtypesFirst(assignable, cs)
    requires k <= |cs| && forall j :: 0 <= j < k ==> !assignable(cs[j], c)
    requires k < |cs| ==> assignable(cs[k], c)
    ensures SubtypesFirst(assignable, cs[..k] + [c] + cs[k..])
  {
    var rs := cs[..k] + [c] + cs[k..];
    forall i, j | 0 <= i < j < |rs| && assignable(rs[i], rs[j])
      ensures assignable(rs[j], rs[i])
    {
      var i', j' := if i < k then i else i - 1, if j < k then j else j - 1;
      if i != k && j != k {
        assert rs[i] == cs[i'] && rs[j] == cs[j'] && i' < j';
      } else if j == k {
        assert false;
      } else {
        // rs[i] is c and cs[k] is assignable from c, hence from cs[j'], which is then mutually
        // assignable with cs[k] and so assignable to c as well.
        assert rs[i] == c && rs[j] == cs[j'] && k <= j';
        if k < j' {
          assert assignable(cs[k], cs[j']);
          assert assignable(cs[j'], cs[k]);
        }
      }
    }
  }

  /** For any registration order, no writer's class comes after a class it is assignable to. */
  lemma {:induction false} OrderedSubtypesFirst(assignable: Assignable, ws: seq<Writer>)
    requires Transitive(assignable)
    ensures SubtypesFirst(assignable, Classes(Ordered(assignable, ws)))
  {
    if |ws| > 0 {
      var init := ws[..|ws| - 1];
      var w := ws[|ws| - 1];
      OrderedSubtypesFirst(assignable, init);
      if w.typeClass.Some? {
        InsertSubtypesFirst(assignable, Ordered(assignable, init), (w.typeClass.value, w));
      }
    }
  }

  /** Every key of the map is the class of some entry of the list. */
  lemma {:induction false} MapOfKeys(es: seq<Entry>)
    ensures forall k :: k in Keys(MapOf(es)) ==> k in Classes(es)
  {
    if |es| > 0 {
      var init := es[..|es| - 1];
      MapOfKeys(init);
      assert forall p :: 0 <= p < |init| ==> Classes(init)[p] == Classes(es)[p];
      assert Classes(es)[|es| - 1] == es[|es| - 1].0;
    }
  }

  /** The map's keys keep the order property of the list they were put from. */
  lemma {:induction false} MapOfSubtypesFirst(assignable: Assignable, es: seq<Entry>)
    requires SubtypesFirst(assignable, Classes(es))
    ensures SubtypesFirst(assignable, Keys(MapOf(es)))
  {
    if |es| > 0 {
      var init := es[..|es| - 1];
      var last := es[|es| - 1];
      var cs := Classes(es);
      assert forall p :: 0 <= p < |init| ==> Classes(init)[p] == cs[p];
      MapOfSubtypesFirst(assignable, init);
      var ks := Keys(MapOf(init));
      if last.0 !in ks {
        MapOfKeys(init);
        forall i | 0 <= i < |ks| && assignable(ks[i], last.0)
          ensures assignable(last.0, ks[i])
        {
          assert ks[i] in Classes(init);
          var p :| 0 <= p < |init| && Classes(init)[p] == ks[i];
          assert cs[p] == ks[i] && cs[|es| - 1] == last.0;
        }
        AppendKeepsOrder(assignable, ks, last.0);
      }
    }
  }

  /** A class that every earlier class assignable from it is also assignable to can go last. */
  lemma AppendKeepsOrder(assignable: Assignable, ks: seq<Class>, c: Class)
    requires SubtypesFirst(assignable, ks)
    requires forall i :: 0 <= i < |ks| && assignable(ks[i], c) ==> assignable(c, ks[i])
    ensures SubtypesFirst(assignable, ks + [c])
  {
    var rs := ks + [c];
    forall i, j | 0 <= i < j < |rs| && assignable(rs[i], rs[j])
      ensures assignable(rs[j], rs[i])
    {
      assert rs[i] == ks[i];
      if j < |ks| {
        assert rs[j] == ks[j];
      }
    }
  }

  /** The map iterates in an order that keeps subtypes before their supertypes. */
  lemma MapSubtypesFirst(assignable: Assignable, ws: seq<Writer>)
    requires Transitive(assignable)
    ensures SubtypesFirst(assignable, Keys(WriterMap(assignable, ws)))
  {
    OrderedSubtypesFirst(assignable, ws);
    MapOfSubtypesFirst(assignable, Ordered(assignable, ws));
  }

  /** Without explicit writers (none registered, or only multi-type ones) the map is empty. */
  lemma {:induction false} NoExplicitEmptyMap(assignable: Assignable, ws: seq<Writer>)
    requires forall i :: 0 <= i < |ws| ==> ws[i].typeClass.None?
    ensures Ordered(assignable, ws) == [] && Keys(WriterMap(assignable, ws)) == []
  {
    if |ws| > 0 {
      NoExplicitEmptyMap(assignable, ws[..|ws| - 1]);
    }
  }

  // ---------------------------------------------------------------- one class, several writers

  /** The writers of the list whose class is `c`, in list order. */
  function Only(es: seq<Entry>, c: Class): seq<Writer>
  {
    if |es| == 0 then []
    else
      var init := Only(es[..|es| - 1], c);
      if es[|es| - 1].0 == c then init + [es[|es| - 1].1] else init
  }

  function Reverse<T>(s: seq<T>): (r: seq<T>)
    ensures |r| == |s|
  {
    if |s| == 0 then [] else [s[|s| - 1]] + Reverse(s[..|s| - 1])
  }

  lemma {:induction false} OnlyConcat(a: seq<Entry>, b: seq<Entry>, c: Class)
    ensures Only(a + b, c) == Only(a, c) + Only(b, c)
    decreases |b|
  {
    if |b| == 0 {
      assert a + b == a;
    } else {
      OnlyConcat(a, b[..|b| - 1], c);
      assert (a + b)[..|a + b| - 1] == a + b[..|b| - 1];
    }
  }

  lemma {:induction false} OnlyOfNone(es: seq<Entry>, c: Class)
    requires forall j :: 0 <= j < |es| ==> es[j].0 != c
    ensures Only(es, c) == []
  {
    if |es| > 0 {
      OnlyOfNone(es[..|es| - 1], c);
    }
  }

  lemma OnlySingle(e: Entry, c: Class)
    ensures Only([e], c) == if e.0 == c then [e.1] else []
  {
    assert [e][..0] == [];
  }

  /**
   * A writer is inserted before every earlier writer of its own class (assignability is
   * reflexive), and leaves the order of the writers of other classes alone.
   */
  lemma InsertOnly(assignable: Assignable, es: seq<Entry>, e: Entry, c: Class)
    requires Reflexive(assignable)
    ensures Only(Insert(assignable, es, e), c)
         == if e.0 == c then [e.1] + Only(es, c) else Only(es, c)
  {
    var k := InsertionPoint(assignable, es, e.0);
    InsertParts(assignable, es, e, c);
    OnlySingle(e, c);
    if e.0 == c {
      FrontHasNone(assignable, es, e, c);
    }
    Splice(Only(Insert(assignable, es, e), c), Only(es, c), Only(es[..k], c), Only([e], c), Only(es[k..], c));
  }

  lemma Splice(x: seq<Writer>, y: seq<Writer>, f: seq<Writer>, m: seq<Writer>, b: seq<Writer>)
    requires x == f + m + b && y == f + b
    ensures f == [] ==> x == m + y
    ensures m == [] ==> x == y
  {
    if f == [] {
      assert f + m + b == m + (f + b);
    }
    if m == [] {
      assert f + m == f;
    }
  }

  /** Where the writer goes: the writers of `c` before it, its own, and those after it. */
  lemma InsertParts(assignable: Assignable, es: seq<Entry>, e: Entry, c: Class)
    ensures var k := InsertionPoint(assignable, es, e.0);
      && Only(Insert(assignable, es, e), c) == Only(es[..k], c) + Only([e], c) + Only(es[k..], c)
      && Only(es, c) == Only(es[..k], c) + Only(es[k..], c)
  {
    var k := InsertionPoint(assignable, es, e.0);
    var front, back := es[..k], es[k..];
    calc {
      Only(Insert(assignable, es, e), c);
      { InsertAt(assignable, es, e, k); }
      Only(front + [e] + back, c);
      { OnlyConcat(front + [e], back, c); OnlyConcat(front, [e], c); }
      Only(front, c) + Only([e], c) + Only(back, c);
    }
    assert es == front + back;
    OnlyConcat(front, back, c);
  }

  /** No writer of the inserted writer's own class comes before the place it is inserted. */
  lemma FrontHasNone(assignable: Assignable, es: seq<Entry>, e: Entry, c: Class)
    requires Reflexive(assignable) && e.0 == c
    ensures Only(es[..InsertionPoint(assignable, es, e.0)], c) == []
  {
    assert assignable(c, c);
    OnlyOfNone(es[..InsertionPoint(assignable, es, e.0)], c);
  }

  /** The writers registered for one class appear in the ordered list latest first. */
  lemma {:induction false} OrderedOnly(assignable: Assignable, ws: seq<Writer>, c: Class)
    requires Reflexive(assignable)
    ensures Only(Ordered(assignable, ws), c) == Reverse(Only(Explicit(ws), c))
  {
    if |ws| > 0 {
      var init := ws[..|ws| - 1];
      var w := ws[|ws| - 1];
      OrderedOnly(assignable, init, c);
      if w.typeClass.Some? {
        var e := (w.typeClass.value, w);
        InsertOnly(assignable, Ordered(assignable, init), e, c);
        var x := Explicit(init) + [e];
        assert x[..|x| - 1] == Explicit(init);
      }
    }
  }

  /** The map's value for a class is the last entry of that class in the list. */
  lemma {:induction false} MapOfValue(es: seq<Entry>, c: Class)
    ensures var o := Only(es, c);
      Get(MapOf(es), c) == if |o| == 0 then None else Some(o[|o| - 1])
  {
    if |es| > 0 {
      var init := es[..|es| - 1];
      var last := es[|es| - 1];
      MapOfValue(init, c);
      OnlySnoc(es, c);
      GetPut(MapOf(init), last.0, last.1, c);
    }
  }

  lemma OnlySnoc(es: seq<Entry>, c: Class)
    requires |es| > 0
    ensures Only(es, c) == Only(es[..|es| - 1], c) + if es[|es| - 1].0 == c then [es[|es| - 1].1] else []
  {
  }

  lemma {:induction false} LastOfReverse<T>(s: seq<T>)
    requires |s| > 0
    ensures Reverse(s)[|s| - 1] == s[0]
  {
    if |s| > 1 {
      LastOfReverse(s[..|s| - 1]);
      assert s[..|s| - 1][0] == s[0];
    }
  }

  /**
   * When several explicit writers share a class, the map gives the one registered FIRST: a
   * later one is inserted before it, and `put` keeps the key's place but takes the value of
   * the last entry, which is the earliest writer.
   */
  lemma FirstRegisteredWins(assignable: Assignable, ws: seq<Writer>, c: Class)
    requires Reflexive(assignable)
    ensures var o := Only(Explicit(ws), c);
      Get(WriterMap(assignable, ws), c) == if |o| == 0 then None else Some(o[0])
  {
    OrderedOnly(assignable, ws, c);
    MapOfValue(Ordered(assignable, ws), c);
    var o := Only(Explicit(ws), c);
    if |o| > 0 {
      LastOfReverse(o);
    }
  }

  // ---------------------------------------------------------------- the registry

  class TypeHandlerRegistry {
    const assignable: Assignable
    var typeReaders: seq<Reader>
    var typeWriters: seq<Writer>
    var explicitReaderMap: map<seq<byte>, Reader>
    var explicitWriterMap: LinkedMap<Class, Writer>
    var updateExplicitWriterMap: bool

    /** The reader map always reflects the readers; the writer map does until the flag is set. */
    ghost predicate Valid()
      reads this
    {
      && explicitReaderMap == NameMap(map[], typeReaders)
      && (!updateExplicitWriterMap ==> explicitWriterMap == WriterMap(assignable, typeWriters))
    }

    constructor (assignable: Assignable)
      ensures Valid() && this.assignable == assignable
      ensures typeReaders == [] && typeWriters == [] && explicitReaderMap == map[]
      ensures explicitWriterMap == Empty() && !updateExplicitWriterMap
    {
      this.assignable := assignable;
      typeReaders, typeWriters := [], [];
      explicitReaderMap, explicitWriterMap := map[], Empty();
      updateExplicitWriterMap := false;
    }

    /** `register(TypeReader...)`: append the readers, then map every name of each explicit one. */
    method RegisterReaders(readers: seq<Reader>)
      requires Valid()
      modifies this
      ensures Valid()
      ensures typeReaders == old(typeReaders) + readers
      ensures explicitReaderMap == NameMap(old(explicitReaderMap), readers)
      ensures typeWriters == old(typeWriters) && explicitWriterMap == old(explicitWriterMap)
      ensures updateExplicitWriterMap == old(updateExplicitWriterMap)
    {
      typeReaders := typeReaders + readers;
      var i := 0;
      while i < |readers|
        invariant 0 <= i <= |readers|
        invariant explicitReaderMap == NameMap(old(explicitReaderMap), readers[..i])
        invariant typeReaders == old(typeReaders) + readers && typeWriters == old(typeWriters)
        invariant explicitWriterMap == old(explicitWriterMap)
        invariant updateExplicitWriterMap == old(updateExplicitWriterMap)
      {
        var r := readers[i];
        if r.typeNames.Some? {
          var names := r.typeNames.value;
          var k := 0;
          while k < |names|
            invariant 0 <= k <= |names|
            invariant typeReaders == old(typeReaders) + readers && typeWriters == old(typeWriters)
            invariant explicitWriterMap == old(explicitWriterMap)
            invariant updateExplicitWriterMap == old(updateExplicitWriterMap)
            invariant explicitReaderMap == PutNames(NameMap(old(explicitReaderMap), readers[..i]), r, names[..k])
          {
            explicitReaderMap := explicitReaderMap[names[k] := r];
            assert names[..k + 1][..k] == names[..k];
            k := k + 1;
          }
          assert names[..k] == names;
        }
        assert readers[..i + 1][..i] == readers[..i];
        i := i + 1;
      }
      assert readers[..i] == readers;
      NameMapAppend(map[], old(typeReaders), readers);
    }

    /** `register(TypeWriter...)`: append the writers and mark the writer map for rebuilding. */
    method RegisterWriters(writers: seq<Writer>)
      requires Valid()
      modifies this
      ensures Valid()
      ensures typeWriters == old(typeWriters) + writers && updateExplicitWriterMap
      ensures typeReaders == old(typeReaders) && explicitReaderMap == old(explicitReaderMap)
      ensures explicitWriterMap == old(explicitWriterMap)
    {
      typeWriters := typeWriters + writers;
      updateExplicitWriterMap := true;
    }

    /** `register(TypeHandler...)`: a handler is both a reader and a writer; register each side. */
    method RegisterHandlers(handlers: seq<(Reader, Writer)>)
      requires Valid()
      modifies this
      ensures Valid()
      ensures typeReaders == old(typeReaders) + Readers(handlers)
      ensures typeWriters == old(typeWriters) + Writers(handlers) && updateExplicitWriterMap
      ensures explicitReaderMap == NameMap(old(explicitReaderMap), Readers(handlers))
    {
      RegisterReaders(Readers(handlers));
      RegisterWriters(Writers(handlers));
    }

    /**
     * `explicitTypeWriterMap()`: when writers were registered, rebuild the ordered list by
     * inserting each explicit writer before the first entry whose class is assignable from
     * its own, then fill a new insertion-ordered map from it. The result depends only on
     * the registered writers, so two calls without a registration between them agree.
     */
    method ExplicitTypeWriterMap() returns (m: LinkedMap<Class, Writer>)
      requires Valid()
      modifies this
      ensures Valid()
      ensures m == WriterMap(assignable, typeWriters) && explicitWriterMap == m
      ensures typeReaders == old(typeReaders) && typeWriters == old(typeWriters)
      ensures explicitReaderMap == old(explicitReaderMap)
      ensures updateExplicitWriterMap == old(updateExplicitWriterMap)
    {
      if updateExplicitWriterMap {
        var writers := typeWriters;
        var ordered: seq<Entry> := [];
        var i := 0;
        while i < |writers|
          modifies {}
          invariant 0 <= i <= |writers|
          invariant ordered == Ordered(assignable, writers[..i])
        {
          var w := writers[i];
          assert writers[..i + 1][..i] == writers[..i];
          if w.typeClass.Some? {
            var current := (w.typeClass.value, w);
            var k := 0;
            var added := false;
            while k < |ordered| && !added
              modifies {}
              invariant 0 <= k <= |ordered|
              invariant !added ==> forall j :: 0 <= j < k ==> !assignable(ordered[j].0, current.0)
              invariant added ==> ordered == Insert(assignable, Ordered(assignable, writers[..i]), current)
              invariant !added ==> ordered == Ordered(assignable, writers[..i])
              decreases if added then 0 else |ordered| - k + 1
            {
              if assignable(ordered[k].0, current.0) {
                InsertAt(assignable, ordered, current, k);
                ordered := ordered[..k] + [current] + ordered[k..];
                added := true;
              } else {
                k := k + 1;
              }
            }
            if !added {
              InsertAt(assignable, ordered, current, |ordered|);
              assert ordered[..|ordered|] == ordered && ordered[|ordered|..] == [];
              ordered := ordered + [current];
            }
          }
          i := i + 1;
        }
        assert writers[..i] == writers;
        var newMap := Empty();
        var j := 0;
        while j < |ordered|
          modifies {}
          invariant 0 <= j <= |ordered|
          invariant newMap == MapOf(ordered[..j])
        {
          assert ordered[..j + 1][..j] == ordered[..j];
          newMap := Put(newMap, ordered[j].0, ordered[j].1);
          j := j + 1;
        }
        assert ordered[..j] == ordered;
        explicitWriterMap := newMap;
      }
      return explicitWriterMap;
    }
  }

  function Readers(handlers: seq<(Reader, Writer)>): (rs: seq<Reader>)
    ensures |rs| == |handlers| && forall i :: 0 <= i < |rs| ==> rs[i] == handlers[i].0
  {
    seq(|handlers|, i requires 0 <= i < |handlers| => handlers[i].0)
  }

  function Writers(handlers: seq<(Reader, Writer)>): (ws: seq<Writer>)
    ensures |ws| == |handlers| && forall i :: 0 <= i < |ws| ==> ws[i] == handlers[i].1
  {
    seq(|handlers|, i requires 0 <= i < |handlers| => handlers[i].1)
  }

  lemma {:induction false} NameMapAppend(m: map<seq<byte>, Reader>, a: seq<Reader>, b: seq<Reader>)
    ensures NameMap(m, a + b) == NameMap(NameMap(m, a), b)
    decreases |b|
  {
    if |b| == 0 {
      assert a + b == a;
    } else {
      NameMapAppend(m, a, b[..|b| - 1]);
      assert (a + b)[..|a + b| - 1] == a + b[..|b| - 1];
    }
  }

  // ---------------------------------------------------------------- an example

  /** `CharSequence` is assignable from `String`, and from nothing else but itself. */
  function ExampleAssignable(a: Class, b: Class): bool
  {
    a == b || (a == CharSequence && b == StringClass)
  }

  const CharSequence: Class := [0x43, 0x53]   // "CS"
  const StringClass: Class := [0x53]          // "S"

  /** Registering a `CharSequence` handler and then a `String` handler puts `String` first. */
  lemma StringBeforeCharSequence()
    ensures var cs := Writer(0, Some(CharSequence), {});
      var str := Writer(1, Some(StringClass), {});
      Keys(WriterMap(ExampleAssignable, [cs, str])) == [StringClass, CharSequence]
  {
    var cs := Writer(0, Some(CharSequence), {});
    var str := Writer(1, Some(StringClass), {});
    var ws: seq<Writer> := [cs, str];
    var none: seq<Entry> := [];
    assert ws[..1] == [cs];
    assert Ordered(ExampleAssignable, [cs][..0]) == none;
    assert Ordered(ExampleAssignable, [cs]) == Insert(ExampleAssignable, none, (CharSequence, cs));
    var es: seq<Entry> := [(StringClass, str), (CharSequence, cs)];
    assert Ordered(ExampleAssignable, ws) == es;
    assert es[..1] == [(StringClass, str)] && es[..1][..0] == none;
    var one := MapOf(es[..1]);
    assert Keys(MapOf(none)) == [];
    assert one == Put(MapOf(none), StringClass, str);
    assert Keys(one) == [StringClass];
    assert CharSequence != StringClass;
  }
}
