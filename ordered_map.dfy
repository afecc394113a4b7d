/** A JavaScript `Map` as an association list: entries in insertion order, as
    `Map.prototype.entries()` enumerates them. `Put` is `map.set` (an existing key
    keeps its position, a new key goes last) and `Delete` is `map.delete`. */
module OrderedMap {
  import opened Base

  /** The keys in enumeration order. */
  function Keys<K, V>(m: seq<(K, V)>): (ks: seq<K>)
    ensures |ks| == |m|
    ensures forall i :: 0 <= i < |m| ==> ks[i] == m[i].0
  {
    if m == [] then [] else [m[0].0] + Keys(m[1..])
  }

  /** The map invariant: no key is listed twice. */
  predicate DistinctKeys<K(==), V>(m: seq<(K, V)>) {
    NoDup(Keys(m))
  }

  /** `map.has(k)`. */
  predicate Has<K(==), V>(m: seq<(K, V)>, k: K) {
    k in Keys(m)
  }

  /** `map.get(k)`, or None where JavaScript gives `undefined`. */
  function Get<K(==), V>(m: seq<(K, V)>, k: K): (r: Option<V>)
    ensures r.Some? <==> Has(m, k)
    ensures r.Some? ==> (k, r.value) in m
  {
    if m == [] then None
    else if m[0].0 == k then Some(m[0].1)
    else Get(m[1..], k)
  }

  /** `map.set(k, v)`. */
  function Put<K(==, !new), V>(m: seq<(K, V)>, k: K, v: V): (r: seq<(K, V)>)
    ensures Keys(r) == if Has(m, k) then Keys(m) else Keys(m) + [k]
    ensures forall j :: Get(r, j) == if j == k then Some(v) else Get(m, j)
  {
    if m == [] then [(k, v)]
    else if m[0].0 == k then [(k, v)] + m[1..]
    else [m[0]] + Put(m[1..], k, v)
  }

  /** `map.delete(k)`. */
  function Delete<K(==, !new), V>(m: seq<(K, V)>, k: K): (r: seq<(K, V)>)
    ensures forall j :: Get(r, j) == if j == k then None else Get(m, j)
    ensures !Has(m, k) ==> r == m
  {
    if m == [] then []
    else if m[0].0 == k then Delete(m[1..], k)
    else [m[0]] + Delete(m[1..], k)
  }

  /** `map.delete` keeps the map invariant and shrinks the size by one exactly for a present key. */
  lemma {:induction false} DeleteKeepsDistinct<K(!new), V>(m: seq<(K, V)>, k: K)
    requires DistinctKeys(m)
    ensures DistinctKeys(Delete(m, k))
    ensures |Delete(m, k)| == if Has(m, k) then |m| - 1 else |m|
  {
    if m != [] {
      var tail := Delete(m[1..], k);
      assert Keys(m) == [m[0].0] + Keys(m[1..]);
      NoDupCons(m[0].0, Keys(m[1..]));
      DeleteKeepsDistinct(m[1..], k);
      if m[0].0 != k {
        assert Keys([m[0]] + tail) == [m[0].0] + Keys(tail);
        assert !Has(tail, m[0].0) by { assert Get(tail, m[0].0) == Get(m[1..], m[0].0); }
        NoDupCons(m[0].0, Keys(tail));
      } else {
        assert !Has(m[1..], k);
      }
    }
  }

  /** The first key of a map does not occur again in the rest, which is itself a map. */
  lemma HeadKeyUnique<K, V>(m: seq<(K, V)>)
    requires DistinctKeys(m) && m != []
    ensures !Has(m[1..], m[0].0) && DistinctKeys(m[1..])
  {
    assert Keys(m) == [m[0].0] + Keys(m[1..]);
    NoDupCons(m[0].0, Keys(m[1..]));
  }

  /** `map.delete` of a present key removes just its entry: every other entry keeps
      its place relative to the rest. */
  lemma {:induction false} DeleteAt<K(!new), V>(m: seq<(K, V)>, k: K, p: nat)
    requires DistinctKeys(m) && p < |m| && m[p].0 == k
    ensures Delete(m, k) == m[..p] + m[p + 1..]
  {
    HeadKeyUnique(m);
    if p == 0 {
      DeleteAbsent(m[1..], k);
    } else {
      assert m[0].0 != k by { assert Keys(m)[0] != Keys(m)[p]; }
      assert m[1..][p - 1] == m[p];
      DeleteAt(m[1..], k, p - 1);
      DeleteSkip(m, k, p);
    }
  }

  lemma DeleteAbsent<K(!new), V>(m: seq<(K, V)>, k: K)
    requires !Has(m, k)
    ensures Delete(m, k) == m
  {
  }

  lemma DeleteSkip<K(!new), V>(m: seq<(K, V)>, k: K, p: nat)
    requires 0 < p < |m| && m[0].0 != k
    requires Delete(m[1..], k) == m[1..][..p - 1] + m[1..][p..]
    ensures Delete(m, k) == m[..p] + m[p + 1..]
  {
    assert m[..p] + m[p + 1..] == [m[0]] + (m[1..][..p - 1] + m[1..][p..]);
  }

  /** `map.set` keeps the map invariant and grows the size by one exactly for a new key. */
  lemma PutKeepsDistinct<K(!new), V>(m: seq<(K, V)>, k: K, v: V)
    requires DistinctKeys(m)
    ensures DistinctKeys(Put(m, k, v))
    ensures |Put(m, k, v)| == if Has(m, k) then |m| else |m| + 1
  {
  }

  /** Every value stored under a key is the value some entry holds. */
  lemma GetFromEntry<K, V>(m: seq<(K, V)>, i: nat)
    requires DistinctKeys(m) && i < |m|
    ensures Get(m, m[i].0) == Some(m[i].1)
  {
    if i > 0 {
      assert Keys(m)[0] != Keys(m)[i];
      assert m[1..][i - 1] == m[i];
      assert DistinctKeys(m[1..]) by { NoDupCons(m[0].0, Keys(m[1..])); assert Keys(m) == [m[0].0] + Keys(m[1..]); }
      GetFromEntry(m[1..], i - 1);
    }
  }
}
