/**
 * A JavaScript `Map`: an association list that keeps its keys in insertion
 * order. `Set` on a key that is present replaces the value in place; on a new
 * key it appends an entry. The calculation uses it for both rollups and the
 * order service for removing duplicate orders.
 */
module OrderedMap {
  import opened Wrappers

  type OrderedMap<K, V> = seq<(K, V)>

  /** The keys, in iteration order. */
  function Keys<K, V>(m: OrderedMap<K, V>): (ks: seq<K>)
    ensures |ks| == |m|
    ensures forall i :: 0 <= i < |m| ==> ks[i] == m[i].0
  {
    if m == [] then [] else [m[0].0] + Keys(m[1..])
  }

  /** The values, in iteration order (`Map.prototype.values`). */
  function Values<K, V>(m: OrderedMap<K, V>): (vs: seq<V>)
    ensures |vs| == |m|
    ensures forall i :: 0 <= i < |m| ==> vs[i] == m[i].1
  {
    if m == [] then [] else [m[0].1] + Values(m[1..])
  }

  predicate Distinct<K(==)>(ks: seq<K>) {
    forall i, j :: 0 <= i < j < |ks| ==> ks[i] != ks[j]
  }

  /** `Map.prototype.get`. */
  function Get<K(==), V>(m: OrderedMap<K, V>, k: K): Option<V> {
    if m == [] then None
    else if m[0].0 == k then Some(m[0].1)
    else Get(m[1..], k)
  }

  /** `Map.prototype.set`. */
  function Set<K(==,!new), V>(m: OrderedMap<K, V>, k: K, v: V): (r: OrderedMap<K, V>)
    ensures Get(r, k) == Some(v)
    ensures forall k' :: k' != k ==> Get(r, k') == Get(m, k')
  {
    if m == [] then [(k, v)]
    else if m[0].0 == k then [(k, v)] + m[1..]
    else [m[0]] + Set(m[1..], k, v)
  }

  /** A key already present keeps its place; a new key goes last. */
  lemma {:induction false} SetKeys<K(!new), V>(m: OrderedMap<K, V>, k: K, v: V)
    ensures Keys(Set(m, k, v)) == if k in Keys(m) then Keys(m) else Keys(m) + [k]
  {
    if m != [] {
      assert Keys(m) == [m[0].0] + Keys(m[1..]);
      if m[0].0 != k {
        SetKeys(m[1..], k, v);
        var rest := Set(m[1..], k, v);
        assert Keys([m[0]] + rest) == [m[0].0] + Keys(rest);
      } else {
        assert Keys([(k, v)] + m[1..]) == [k] + Keys(m[1..]);
      }
    }
  }

  /** `Set` keeps the keys distinct. */
  lemma {:induction false} SetKeysDistinct<K(!new), V>(m: OrderedMap<K, V>, k: K, v: V)
    requires Distinct(Keys(m))
    ensures Distinct(Keys(Set(m, k, v)))
  {
    SetKeys(m, k, v);
  }

  /** Every entry after a `Set` is the new one or was there before. */
  lemma {:induction false} SetEntries<K(!new), V>(m: OrderedMap<K, V>, k: K, v: V)
    ensures forall i :: 0 <= i < |Set(m, k, v)| ==> Set(m, k, v)[i] == (k, v) || Set(m, k, v)[i] in m
  {
    if m != [] && m[0].0 != k {
      SetEntries(m[1..], k, v);
      var r := Set(m, k, v);
      forall i | 0 <= i < |r|
        ensures r[i] == (k, v) || r[i] in m
      {
        if i > 0 {
          assert r[i] == Set(m[1..], k, v)[i - 1];
        }
      }
    }
  }

  /** The total of a numeric view `w` of the values. */
  function SumBy<K, V>(m: OrderedMap<K, V>, w: V -> real): real {
    if m == [] then 0.0 else w(m[0].1) + SumBy(m[1..], w)
  }

  /** `Set` changes the total by exactly the replaced value's share. */
  lemma {:induction false} SetSum<K(!new), V>(m: OrderedMap<K, V>, k: K, v: V, w: V -> real)
    ensures SumBy(Set(m, k, v), w)
         == SumBy(m, w) - (match Get(m, k) case Some(o) => w(o) case None => 0.0) + w(v)
  {
    if m != [] && m[0].0 != k {
      SetSum(m[1..], k, v, w);
    }
  }

  /** The position of the first occurrence of `k` in `ks`. */
  function FirstIndex<K(==)>(ks: seq<K>, k: K): (i: nat)
    requires k in ks
    ensures i < |ks| && ks[i] == k
    ensures forall j :: 0 <= j < i ==> ks[j] != k
  {
    if ks[0] == k then 0 else 1 + FirstIndex(ks[1..], k)
  }

  /** The distinct elements of `ks`, each at the place where it first occurs. */
  function FirstSeen<K(==,!new)>(ks: seq<K>): (r: seq<K>)
    ensures Distinct(r)
    ensures forall k :: k in r <==> k in ks
    ensures forall i, j :: 0 <= i < j < |r| ==> FirstIndex(ks, r[i]) < FirstIndex(ks, r[j])
  {
    if ks == [] then []
    else
      var prefix := ks[..|ks| - 1];
      var p := FirstSeen(prefix);
      var last := ks[|ks| - 1];
      assert ks == prefix + [last];
      forall k | k in prefix
        ensures FirstIndex(ks, k) == FirstIndex(prefix, k)
      {
        var a, b := FirstIndex(ks, k), FirstIndex(prefix, k);
        assert ks[b] == k;
      }
      if last in p then p
      else
        assert FirstIndex(ks, last) == |ks| - 1;
        p + [last]
  }
  /** Appending an element keeps every earlier first occurrence; a new element first occurs at the end. */
  lemma {:induction false} FirstIndexAppend<K>(ks: seq<K>, x: K, k: K)
    requires k in ks + [x]
    ensures FirstIndex(ks + [x], k) == if k in ks then FirstIndex(ks, k) else |ks|
  {
    var a := FirstIndex(ks + [x], k);
    if k in ks {
      var b := FirstIndex(ks, k);
      assert (ks + [x])[b] == k;
    }
  }
}
