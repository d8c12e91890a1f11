/**
 * Insertion-ordered maps, as `java.util.LinkedHashMap` behaves: iteration follows the order
 * in which keys were first put, and putting an existing key replaces its value in place.
 */
module LinkedMaps {
  import opened JavaTypes

  datatype LinkedMap<K, V> = LinkedMap(entries: seq<(K, V)>)

  function Keys<K, V>(m: LinkedMap<K, V>): (ks: seq<K>)
    ensures |ks| == |m.entries|
    ensures forall i :: 0 <= i < |ks| ==> ks[i] == m.entries[i].0
  {
    seq(|m.entries|, i requires 0 <= i < |m.entries| => m.entries[i].0)
  }

  /** No key appears twice. */
  predicate Distinct<K(==), V>(m: LinkedMap<K, V>)
  {
    forall i, j :: 0 <= i < j < |m.entries| ==> m.entries[i].0 != m.entries[j].0
  }

  function Empty<K, V>(): (m: LinkedMap<K, V>)
    ensures Keys(m) == []
  {
    LinkedMap([])
  }

  /** Where key `k` sits: the first entry that has it. */
  function IndexOf<K(==), V>(m: LinkedMap<K, V>, k: K): (i: nat)
    requires k in Keys(m)
    ensures i < |m.entries| && m.entries[i].0 == k
    ensures forall j :: 0 <= j < i ==> m.entries[j].0 != k
    decreases |m.entries|
  {
    if m.entries[0].0 == k then 0
    else
      KeysTail(m, k);
      1 + IndexOf(LinkedMap(m.entries[1..]), k)
  }

  /** A key that is not the first one is a key of the entries after the first. */
  lemma KeysTail<K, V>(m: LinkedMap<K, V>, k: K)
    requires k in Keys(m) && m.entries[0].0 != k
    ensures k in Keys(LinkedMap(m.entries[1..]))
  {
    var i :| 0 <= i < |Keys(m)| && Keys(m)[i] == k;
    assert Keys(LinkedMap(m.entries[1..]))[i - 1] == k;
  }

  /** `get(k)`: the value of the entry with key `k`, or `None` (Java's `null`). */
  function Get<K(==), V>(m: LinkedMap<K, V>, k: K): (r: Option<V>)
    ensures r.Some? <==> k in Keys(m)
  {
    if k in Keys(m) then Some(m.entries[IndexOf(m, k)].1) else None
  }

  /** `put(k, v)`: a new key goes last, an existing key keeps its place and takes the value. */
  function Put<K(==), V>(m: LinkedMap<K, V>, k: K, v: V): (r: LinkedMap<K, V>)
    ensures Keys(r) == if k in Keys(m) then Keys(m) else Keys(m) + [k]
    ensures Get(r, k) == Some(v)
  {
    if k in Keys(m) then
      var i := IndexOf(m, k);
      var r := LinkedMap(m.entries[i := (k, v)]);
      assert Keys(r) == Keys(m);
      assert IndexOf(r, k) == i;
      r
    else
      var r := LinkedMap(m.entries + [(k, v)]);
      assert Keys(r) == Keys(m) + [k];
      assert IndexOf(r, k) == |m.entries|;
      r
  }

  /** Putting one key leaves the value of every other key as it was. */
  lemma PutOther<K, V>(m: LinkedMap<K, V>, k: K, v: V, k': K)
    requires k' != k
    ensures Get(Put(m, k, v), k') == Get(m, k')
  {
    var r := Put(m, k, v);
    if k' in Keys(m) {
      assert k' in Keys(r);
      var i := IndexOf(m, k');
      assert forall j :: 0 <= j < |m.entries| ==> r.entries[j].0 == m.entries[j].0;
      assert IndexOf(r, k') == i;
    }
  }

  /** `get` after `put`: the new value for the key put, the old one for every other key. */
  lemma GetPut<K, V>(m: LinkedMap<K, V>, k: K, v: V, k': K)
    ensures Get(Put(m, k, v), k') == if k' == k then Some(v) else Get(m, k')
  {
    if k' != k {
      PutOther(m, k, v, k');
    }
  }
}
