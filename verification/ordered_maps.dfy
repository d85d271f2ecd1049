/** Insertion-ordered maps with the semantics of JavaScript's `Map`:
    `set` on a new key appends it, on a present key replaces its value in place. */
module OrderedMaps {
  import opened Js

  type OrderedMap<K, V> = seq<(K, V)>

  function Keys<K, V>(m: OrderedMap<K, V>): (keys: seq<K>)
    ensures |keys| == |m|
    ensures forall i :: 0 <= i < |m| ==> keys[i] == m[i].0
  {
    if |m| == 0 then [] else [m[0].0] + Keys(m[1..])
  }

  predicate DistinctKeys<K(==), V>(m: OrderedMap<K, V>) {
    forall i, j :: 0 <= i < j < |m| ==> m[i].0 != m[j].0
  }

  /** The position of the first entry under `k`, or `|m|` when there is none. */
  function IndexOf<K(==), V>(m: OrderedMap<K, V>, k: K): (i: nat)
    ensures i <= |m|
    ensures i < |m| ==> m[i].0 == k
    ensures forall j :: 0 <= j < i ==> m[j].0 != k
  {
    if |m| == 0 || m[0].0 == k then 0 else 1 + IndexOf(m[1..], k)
  }

  /** `map.get(k)`: the value stored under `k`, if any. */
  function Get<K(==), V>(m: OrderedMap<K, V>, k: K): (r: Option<V>)
    ensures r.None? <==> forall i :: 0 <= i < |m| ==> m[i].0 != k
    ensures DistinctKeys(m) ==> forall i :: 0 <= i < |m| && m[i].0 == k ==> r == Some(m[i].1)
  {
    var i := IndexOf(m, k);
    if i < |m| then Some(m[i].1) else None
  }

  /** `map.set(k, v)`: a new key is appended, a present one keeps its place. */
  function Put<K(==,!new), V>(m: OrderedMap<K, V>, k: K, v: V): (r: OrderedMap<K, V>)
    ensures (forall i :: 0 <= i < |m| ==> m[i].0 != k) ==> r == m + [(k, v)]
    ensures Get(r, k) == Some(v)
    ensures forall k' :: k' != k ==> Get(r, k') == Get(m, k')
    ensures (exists i :: 0 <= i < |m| && m[i].0 == k) ==> |r| == |m| && Keys(r) == Keys(m)
  {
    var i := IndexOf(m, k);
    if i == |m| then
      var r := m + [(k, v)];
      assert r[|m|].0 == k;
      assert forall j :: 0 <= j < |m| ==> r[j] == m[j];
      r
    else
      var r := m[i := (k, v)];
      assert r[i].0 == k;
      assert forall j :: 0 <= j < |m| ==> r[j].0 == m[j].0;
      r
  }
}
