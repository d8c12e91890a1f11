/**
 * What `TBONReader` reads from a token list: scalars consume nothing, a standalone
 * terminator is an error, arrays and objects are sized by their declared count and then end
 * at `EndOfStructure`, a later duplicate key overwrites an earlier one, typed arrays take exactly their
 * count of elements, and custom types are resolved explicit map first, then by scan, then
 * as a POJO.
 */
module TbonReadingFacts {
  import opened JavaTypes
  import opened TbonToken
  import opened SteakDecoding
  import opened LinkedMaps
  import opened TypeHandlers
  import opened TbonReading

  function Min(a: nat, b: nat): nat
  {
    if a < b then a else b
  }

  /** The parser after `n` calls of `next()`: it stops at the last token. */
  function Skip(c: Cursor, n: nat): (d: Cursor)
    ensures |d.rest| == |c.rest| - Min(n, |c.rest|)
  {
    var m := Min(n, |c.rest|);
    if m == 0 then c else Cursor(c.rest[m - 1], c.rest[m..])
  }

  lemma SkipStep(c: Cursor, i: nat)
    ensures Skip(Step(c), i) == Skip(c, i + 1)
  {
    if |c.rest| > 0 {
      var m := Min(i, |c.rest| - 1);
      assert c.rest[1..][m..] == c.rest[m + 1..];
      if m > 0 {
        assert c.rest[1..][m - 1] == c.rest[m];
      }
    }
  }

  /** A token whose value is a scalar that reads without error. */
  predicate ReadsScalar(t: Tok)
  {
    IsScalar(t.fields.token) && ScalarOf(t.fields).Ok?
  }

  function Scalars(ts: seq<Tok>): (vs: seq<Value>)
    requires forall i :: 0 <= i < |ts| ==> ReadsScalar(ts[i])
    ensures |vs| == |ts|
  {
    if |ts| == 0 then []
    else
      assert ReadsScalar(ts[0]);
      [ScalarOf(ts[0].fields).value] + Scalars(ts[1..])
  }

  /** A scalar token is its accessor's value, and reading it moves the parser nowhere. */
  lemma ScalarReadsInPlace(h: Handlers, c: Cursor)
    requires IsScalar(c.current.fields.token)
    ensures var r := Current(h, c);
      && (r.Ok? <==> ScalarOf(c.current.fields).Ok?)
      && (r.Ok? ==> r.value == (ScalarOf(c.current.fields).value, c))
      && (r.Err? ==> r.error == ScalarOf(c.current.fields).error)
  {
    var t := c.current.fields.token;
    assert PrimitiveArrayKindOf(t).None?;
  }

  // ---------------------------------------------------------------- arrays

  lemma {:induction false} ArrayItemsOfScalars(h: Handlers, c: Cursor, ts: seq<Tok>, end: Tok,
                                               more: seq<Tok>, acc: seq<Value>)
    requires forall i :: 0 <= i < |ts| ==> ReadsScalar(ts[i])
    requires end.fields.token == EndOfStructure && c.rest == ts + [end] + more
    ensures ArrayItems(h, c, acc) == Ok((VList(acc + Scalars(ts)), Cursor(end, more)))
    decreases |ts|
  {
    var d := Step(c);
    if |ts| == 0 {
      assert c.rest[0] == end && c.rest[1..] == more;
      assert acc + Scalars(ts) == acc;
    } else {
      assert d.current == ts[0] && d.rest == ts[1..] + [end] + more;
      ScalarReadsInPlace(h, d);
      var v := ScalarOf(ts[0].fields).value;
      ArrayItemsOfScalars(h, d, ts[1..], end, more, acc + [v]);
      assert acc + [v] + Scalars(ts[1..]) == acc + Scalars(ts);
    }
  }

  /**
   * An `Array` token followed by scalar tokens and `EndOfStructure` reads as the list of those
   * scalars in stream order, and leaves the parser on the terminator, whatever element count
   * the list could be sized for.
   */
  lemma ArrayOfScalars(h: Handlers, a: Tok, ts: seq<Tok>, end: Tok, more: seq<Tok>)
    requires a.fields.token == Array && end.fields.token == EndOfStructure
    requires ListSizable(a.fields.elementCount)
    requires forall i :: 0 <= i < |ts| ==> ReadsScalar(ts[i])
    ensures Current(h, Cursor(a, ts + [end] + more)) == Ok((VList(Scalars(ts)), Cursor(end, more)))
  {
    var none: seq<Value> := [];
    ArrayItemsOfScalars(h, Cursor(a, ts + [end] + more), ts, end, more, none);
    assert none + Scalars(ts) == Scalars(ts);
  }

  /**
   * Beyond sizing the list, the declared count of an `Array` plays no part: any other count
   * the list can be sized for reads the same.
   */
  lemma ArrayCountIgnored(h: Handlers, c: Cursor, n: int32)
    requires c.current.fields.token == Array && |c.rest| > 0
    requires ListSizable(c.current.fields.elementCount) && ListSizable(n)
    ensures Current(h, c) == Current(h, c.(current := c.current.(fields := c.current.fields.(elementCount := n))))
  {
  }

  /** The array loop ends when `next()` returns false: a list cut short reads as what it has. */
  lemma ArrayEndsWithTokens(h: Handlers, a: Tok, ts: seq<Tok>)
    requires a.fields.token == Array && ListSizable(a.fields.elementCount)
    requires forall i :: 0 <= i < |ts| ==> ReadsScalar(ts[i])
    ensures var r := Current(h, Cursor(a, ts));
      r.Ok? && r.value.0 == VList(Scalars(ts)) && r.value.1.rest == []
  {
    var none: seq<Value> := [];
    ArrayItemsToEnd(h, Cursor(a, ts), ts, none);
    assert none + Scalars(ts) == Scalars(ts);
  }

  lemma {:induction false} ArrayItemsToEnd(h: Handlers, c: Cursor, ts: seq<Tok>, acc: seq<Value>)
    requires forall i :: 0 <= i < |ts| ==> ReadsScalar(ts[i])
    requires c.rest == ts
    ensures var r := ArrayItems(h, c, acc);
      r.Ok? && r.value.0 == VList(acc + Scalars(ts)) && r.value.1.rest == []
    decreases |ts|
  {
    if |ts| > 0 {
      var d := Step(c);
      assert d.current == ts[0] && d.rest == ts[1..];
      ScalarReadsInPlace(h, d);
      var v := ScalarOf(ts[0].fields).value;
      ArrayItemsToEnd(h, d, ts[1..], acc + [v]);
      assert acc + [v] + Scalars(ts[1..]) == acc + Scalars(ts);
    }
  }

  /**
   * The array loop over any values, nested arrays and objects included: when each `next()`
   * lands on a token whose `currentValue()` reads `vs[i]` and leaves the parser at `cs[i + 1]`,
   * and the last `next()` lands on `EndOfStructure`, the loop appends `vs` in order.
   */
  lemma {:induction false} ArrayItemsOfReads(h: Handlers, cs: seq<Cursor>, vs: seq<Value>, acc: seq<Value>)
    requires |cs| == |vs| + 1
    requires forall i :: 0 <= i < |vs| ==>
      |cs[i].rest| > 0 && !Step(cs[i]).current.fields.token.EndOfStructure?
      && Current(h, Step(cs[i])) == Ok((vs[i], cs[i + 1]))
    requires |cs[|vs|].rest| > 0 && Step(cs[|vs|]).current.fields.token.EndOfStructure?
    ensures ArrayItems(h, cs[0], acc) == Ok((VList(acc + vs), Step(cs[|vs|])))
    decreases |vs|
  {
    if |vs| > 0 {
      assert Current(h, Step(cs[0])) == Ok((vs[0], cs[1]));
      assert ArrayItems(h, cs[0], acc) == ArrayItems(h, cs[1], acc + [vs[0]]);
      assert forall i :: 0 <= i < |vs[1..]| ==> cs[1..][i] == cs[i + 1] && vs[1..][i] == vs[i + 1];
      ArrayItemsOfReads(h, cs[1..], vs[1..], acc + [vs[0]]);
      assert acc + [vs[0]] + vs[1..] == acc + vs;
    } else {
      assert acc + vs == acc;
    }
  }

  /** An `Array` token whose list can be sized reads as the values its elements read as. */
  lemma ArrayOfReads(h: Handlers, cs: seq<Cursor>, vs: seq<Value>)
    requires |cs| == |vs| + 1
    requires cs[0].current.fields.token == Array && ListSizable(cs[0].current.fields.elementCount)
    requires forall i :: 0 <= i < |vs| ==>
      |cs[i].rest| > 0 && !Step(cs[i]).current.fields.token.EndOfStructure?
      && Current(h, Step(cs[i])) == Ok((vs[i], cs[i + 1]))
    requires |cs[|vs|].rest| > 0 && Step(cs[|vs|]).current.fields.token.EndOfStructure?
    ensures Current(h, cs[0]) == Ok((VList(vs), Step(cs[|vs|])))
  {
    var none: seq<Value> := [];
    ArrayItemsOfReads(h, cs, vs, none);
    assert none + vs == vs;
  }

  /**
   * Counts the collections cannot be sized for: an `Array` of count -2 or below, and an
   * `Object` whose doubled count wraps negative, fail with `IllegalArgumentException` before
   * any token is read. An `Object` count below -2^30 is accepted, because its doubling wraps
   * round to a non-negative capacity.
   */
  lemma UnsizableCounts(h: Handlers, c: Cursor)
    ensures var f := c.current.fields;
      f.token == Array && f.elementCount <= -2 ==> Current(h, c) == Err(IllegalArgument)
    ensures var f := c.current.fields;
      f.token == Object && (-0x4000_0000 <= f.elementCount <= -2 || f.elementCount >= 0x4000_0000)
      ==> Current(h, c) == Err(IllegalArgument)
    ensures var f := c.current.fields;
      f.token == Object && f.elementCount < -0x4000_0000 ==> Current(h, c) == ObjectEntries(h, c, Empty())
  {
    MapSizableCounts(c.current.fields.elementCount);
  }

  // ---------------------------------------------------------------- objects

  /** A key token: a `String` that is not streamed, holding `k`. */
  predicate IsKey(t: Tok, k: seq<byte>)
  {
    t.fields.token == String && !t.fields.inStream && t.fields.objectValue == OText(k)
  }

  /** A well-formed entry: a key token and a scalar value token. */
  predicate IsEntry(p: (Tok, Tok))
  {
    p.0.fields.token == String && !p.0.fields.inStream && p.0.fields.objectValue.OText?
    && ReadsScalar(p.1)
  }

  function KeyText(p: (Tok, Tok)): seq<byte>
    requires IsEntry(p)
  {
    p.0.fields.objectValue.utf8
  }

  function Flatten(ps: seq<(Tok, Tok)>): seq<Tok>
  {
    if |ps| == 0 then [] else [ps[0].0, ps[0].1] + Flatten(ps[1..])
  }

  /** The map the entries are `put` into, in stream order. */
  function PutEntries(m: LinkedMap<Option<seq<byte>>, Value>, ps: seq<(Tok, Tok)>): LinkedMap<Option<seq<byte>>, Value>
    requires forall i :: 0 <= i < |ps| ==> IsEntry(ps[i])
    decreases |ps|
  {
    if |ps| == 0 then m
    else PutEntries(Put(m, Some(KeyText(ps[0])), ScalarOf(ps[0].1.fields).value), ps[1..])
  }

  lemma FlattenCons(ps: seq<(Tok, Tok)>, end: Tok, more: seq<Tok>)
    requires |ps| > 0
    ensures Flatten(ps) + [end] + more == [ps[0].0, ps[0].1] + (Flatten(ps[1..]) + [end] + more)
  {
  }

  /** One key and scalar value: the loop `put`s them and goes on from the value token. */
  lemma ObjectEntriesStep(h: Handlers, c: Cursor, p: (Tok, Tok), tail: seq<Tok>,
                          m: LinkedMap<Option<seq<byte>>, Value>)
    requires IsEntry(p) && c.rest == [p.0, p.1] + tail
    ensures ObjectEntries(h, c, m)
         == ObjectEntries(h, Cursor(p.1, tail), Put(m, Some(KeyText(p)), ScalarOf(p.1.fields).value))
  {
    var d := Step(c);
    assert d.current == p.0 && d.rest == [p.1] + tail;
    var e := Step(d);
    assert e.current == p.1 && e.rest == tail;
    ScalarReadsInPlace(h, e);
  }

  /** `EndOfStructure` ends the loop with the entries so far. */
  lemma ObjectEntriesEnd(h: Handlers, c: Cursor, end: Tok, more: seq<Tok>, m: LinkedMap<Option<seq<byte>>, Value>)
    requires end.fields.token == EndOfStructure && c.rest == [end] + more
    ensures ObjectEntries(h, c, m) == Ok((VMap(m), Cursor(end, more)))
  {
    assert c.rest[0] == end && c.rest[1..] == more;
  }

  lemma {:induction false} ObjectEntriesOfPairs(h: Handlers, c: Cursor, ps: seq<(Tok, Tok)>, end: Tok,
                                                more: seq<Tok>, m: LinkedMap<Option<seq<byte>>, Value>)
    requires forall i :: 0 <= i < |ps| ==> IsEntry(ps[i])
    requires end.fields.token == EndOfStructure && c.rest == Flatten(ps) + [end] + more
    ensures ObjectEntries(h, c, m) == Ok((VMap(PutEntries(m, ps)), Cursor(end, more)))
    decreases |ps|
  {
    if |ps| == 0 {
      ObjectEntriesEnd(h, c, end, more, m);
    } else {
      var tail := Flatten(ps[1..]) + [end] + more;
      FlattenCons(ps, end, more);
      assert IsEntry(ps[0]);
      ObjectEntriesStep(h, c, ps[0], tail, m);
      var m' := Put(m, Some(KeyText(ps[0])), ScalarOf(ps[0].1.fields).value);
      ObjectEntriesOfPairs(h, Cursor(ps[0].1, tail), ps[1..], end, more, m');
    }
  }

  /**
   * An `Object` token followed by key and value tokens and `EndOfStructure` reads as the
   * insertion-ordered map of those entries, `put` in stream order.
   */
  lemma ObjectOfPairs(h: Handlers, o: Tok, ps: seq<(Tok, Tok)>, end: Tok, more: seq<Tok>)
    requires o.fields.token == Object && end.fields.token == EndOfStructure
    requires MapSizable(o.fields.elementCount)
    requires forall i :: 0 <= i < |ps| ==> IsEntry(ps[i])
    ensures Current(h, Cursor(o, Flatten(ps) + [end] + more)) == Ok((VMap(PutEntries(Empty(), ps)), Cursor(end, more)))
  {
    ObjectEntriesOfPairs(h, Cursor(o, Flatten(ps) + [end] + more), ps, end, more, Empty());
  }

  lemma {:induction false} PutEntriesOther(m: LinkedMap<Option<seq<byte>>, Value>, ps: seq<(Tok, Tok)>, k: seq<byte>)
    requires forall i :: 0 <= i < |ps| ==> IsEntry(ps[i]) && KeyText(ps[i]) != k
    ensures Get(PutEntries(m, ps), Some(k)) == Get(m, Some(k))
    decreases |ps|
  {
    if |ps| > 0 {
      PutOther(m, Some(KeyText(ps[0])), ScalarOf(ps[0].1.fields).value, Some(k));
      PutEntriesOther(Put(m, Some(KeyText(ps[0])), ScalarOf(ps[0].1.fields).value), ps[1..], k);
    }
  }

  /** A key that occurs several times keeps the value of its LAST entry. */
  lemma {:induction false} LastEntryWins(m: LinkedMap<Option<seq<byte>>, Value>, ps: seq<(Tok, Tok)>, i: nat)
    requires forall j :: 0 <= j < |ps| ==> IsEntry(ps[j])
    requires i < |ps| && forall j :: i < j < |ps| ==> KeyText(ps[j]) != KeyText(ps[i])
    ensures Get(PutEntries(m, ps), Some(KeyText(ps[i]))) == Some(ScalarOf(ps[i].1.fields).value)
    decreases i
  {
    var m' := Put(m, Some(KeyText(ps[0])), ScalarOf(ps[0].1.fields).value);
    var qs := ps[1..];
    assert forall j :: 0 <= j < |qs| ==> qs[j] == ps[j + 1];
    if i == 0 {
      PutEntriesOther(m', qs, KeyText(ps[0]));
    } else {
      assert qs[i - 1] == ps[i];
      LastEntryWins(m', qs, i - 1);
    }
  }

  // ---------------------------------------------------------------- typed arrays

  /** The elements a typed array takes from `n` successive tokens, starting at the current one. */
  function Elements(k: PrimKind, c: Cursor, n: nat): (es: seq<Prim>)
    ensures |es| == n
    decreases n
  {
    if n == 0 then [] else [Element(k, c.current.fields)] + Elements(k, Step(c), n - 1)
  }

  lemma {:induction false} PrimitiveElementsAre(k: PrimKind, c: Cursor, n: nat, acc: seq<Prim>)
    ensures PrimitiveElements(k, c, n, acc) == Ok((VPrimitiveArray(k, acc + Elements(k, c, n)), Skip(c, n)))
    decreases n
  {
    if n > 0 {
      var e := Element(k, c.current.fields);
      PrimitiveElementsAre(k, Step(c), n - 1, acc + [e]);
      SkipStep(c, n - 1);
      assert acc + [e] + Elements(k, Step(c), n - 1) == acc + Elements(k, c, n);
    } else {
      assert acc + Elements(k, c, n) == acc;
    }
  }

  lemma {:induction false} ElementsAt(k: PrimKind, c: Cursor, n: nat, i: nat)
    requires i < n
    ensures Elements(k, c, n)[i] == Element(k, Skip(c, i).current.fields)
    decreases n
  {
    if i > 0 {
      ElementsAt(k, Step(c), n - 1, i - 1);
      SkipStep(c, i - 1);
    }
  }

  /**
   * A typed array of `n >= 0` elements allocates exactly `n` slots and fills slot `i` from
   * the token `i + 1` places on; it calls `next()` once before the first element and once
   * after each, so it leaves the parser `n + 1` tokens on. `next()`'s result is not checked:
   * when the tokens run out the last one is read again.
   */
  lemma PrimitiveArrayReads(h: Handlers, c: Cursor, k: PrimKind)
    requires c.current.fields.token == PrimitiveArrayToken(k) && c.current.fields.elementCount >= 0
    ensures var n := c.current.fields.elementCount as nat;
      var r := Current(h, c);
      && r.Ok? && r.value.0.VPrimitiveArray? && r.value.0.kind == k
      && |r.value.0.elements| == n
      && (forall i :: 0 <= i < n ==> r.value.0.elements[i] == Element(k, Skip(c, i + 1).current.fields))
      && r.value.1 == Skip(c, n + 1)
  {
    var n := c.current.fields.elementCount as nat;
    var none: seq<Prim> := [];
    PrimitiveElementsAre(k, Step(c), n, none);
    assert none + Elements(k, Step(c), n) == Elements(k, Step(c), n);
    forall i | 0 <= i < n
      ensures Elements(k, Step(c), n)[i] == Element(k, Skip(c, i + 1).current.fields)
    {
      ElementsAt(k, Step(c), n, i);
      SkipStep(c, i);
    }
    SkipStep(c, n);
  }

  /** A negative count fails as `new T[-1]` does. */
  lemma PrimitiveArrayNegativeCount(h: Handlers, c: Cursor, k: PrimKind)
    requires c.current.fields.token == PrimitiveArrayToken(k) && c.current.fields.elementCount < 0
    ensures Current(h, c) == Err(NegativeArraySize)
  {
  }

  // ---------------------------------------------------------------- payloads

  /**
   * An `Octet` token is read in memory when its element count is known and below 32 KiB, and
   * spooled otherwise. The parser never sets the count for an `Octet`, so a payload that
   * follows no structure (count still -1) is always spooled.
   */
  lemma OctetInMemoryOrSpooled(h: Handlers, c: Cursor, b: seq<byte>)
    requires c.current.fields.token == Octet && !c.current.fields.inStream
    requires c.current.fields.objectValue == OOctet(b)
    ensures var n := c.current.fields.elementCount;
      Current(h, c) == Ok((if n != -1 && n < InMemoryLimit then VOctet(b) else VSpooled(b), c))
  {
  }

  /** A streamed payload reads as its chunks' bytes and ends the stream; the position stays. */
  lemma StreamedStringEndsStream(h: Handlers, c: Cursor)
    requires c.current.fields.token == String && c.current.fields.inStream
    ensures var r := Current(h, c);
      && r.Ok? && r.value.0 == VString(c.current.streamed)
      && !r.value.1.current.fields.inStream && r.value.1.rest == c.rest
  {
  }

  // ---------------------------------------------------------------- custom types

  /**
   * A custom type name is resolved by the explicit reader map first, then by the first
   * registered reader that can read it, and only then as a POJO: a loadable class filled
   * from the object value that follows.
   */
  lemma CustomTypeResolution(h: Handlers, c: Cursor, name: seq<byte>)
    requires c.current.fields.token == CustomType && c.current.fields.objectValue == OText(name)
    ensures h.explicitReaderMap.Some? && name in h.explicitReaderMap.value
            ==> Current(h, c) == Ok((VHandled(h.explicitReaderMap.value[name], Some(name)), c))
    ensures !(h.explicitReaderMap.Some? && name in h.explicitReaderMap.value)
            && h.typeReaders.Some? && FirstReadable(h.typeReaders.value, Some(name)).Some?
            ==> Current(h, c) == Ok((VHandled(h.typeReaders.value[FirstReadable(h.typeReaders.value, Some(name)).value], Some(name)), c))
    ensures Resolve(h, Some(name)).None? && name !in h.loadable ==> Current(h, c) == Err(CannotReadCustomType)
    ensures Resolve(h, Some(name)).None? && name in h.loadable
            ==> Current(h, c) == (match NextOf(h, c)
                                  case Err(e) => Err(e)
                                  case Ok(p) =>
                                    if p.0.VMap? then Ok((VPojo(name, p.0.entries), p.1))
                                    else if p.0.VNull? then Err(NullPointer) else Err(ClassCast))
  {
  }

  /**
   * The POJO path end to end: a custom type name that no reader resolves but that names a
   * loadable class, followed by an `Object` of key and value tokens, reads as that class
   * filled with the entries in stream order, and leaves the parser on the object's terminator.
   */
  lemma PojoOfPairs(h: Handlers, t: Tok, name: seq<byte>, o: Tok, ps: seq<(Tok, Tok)>, end: Tok, more: seq<Tok>)
    requires t.fields.token == CustomType && t.fields.objectValue == OText(name)
    requires Resolve(h, Some(name)).None? && name in h.loadable
    requires o.fields.token == Object && MapSizable(o.fields.elementCount)
    requires end.fields.token == EndOfStructure
    requires forall i :: 0 <= i < |ps| ==> IsEntry(ps[i])
    ensures Current(h, Cursor(t, [o] + Flatten(ps) + [end] + more))
         == Ok((VPojo(name, PutEntries(Empty(), ps)), Cursor(end, more)))
  {
    var c := Cursor(t, [o] + Flatten(ps) + [end] + more);
    assert Step(c) == Cursor(o, Flatten(ps) + [end] + more);
    ObjectOfPairs(h, o, ps, end, more);
    assert NextOf(h, c) == Ok((VMap(PutEntries(Empty(), ps)), Cursor(end, more)));
  }
}
