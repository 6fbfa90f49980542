/** Ordered association lists: the model of a PHP ordered array keyed by
    strings, as produced by decoding a YAML mapping. Insertion order is the
    order of the sequence. */
module Assoc {
  import opened Wrappers

  /** The keys in order (PHP `array_keys`). */
  function Keys<K, V>(pairs: seq<(K, V)>): (ks: seq<K>)
    ensures |ks| == |pairs|
    ensures forall i :: 0 <= i < |pairs| ==> ks[i] == pairs[i].0
  {
    if pairs == [] then [] else [pairs[0].0] + Keys(pairs[1..])
  }

  /** No key occurs twice, as in any PHP array or YAML mapping. */
  ghost predicate DistinctKeys<K, V>(pairs: seq<(K, V)>)
  {
    forall i, j :: 0 <= i < j < |pairs| ==> pairs[i].0 != pairs[j].0
  }

  /** Indexing `pairs[k]`: the value of the first pair with key `k`, or `None`
      where PHP reports an undefined index and yields null. */
  function Lookup<K(==), V>(pairs: seq<(K, V)>, k: K): (r: Option<V>)
    ensures r.None? <==> k !in Keys(pairs)
    ensures r.Some? ==> exists j :: 0 <= j < |pairs| && pairs[j] == (k, r.value)
  {
    if pairs == [] then None
    else if pairs[0].0 == k then Some(pairs[0].1)
    else Lookup(pairs[1..], k)
  }

  /** With distinct keys, indexing by the key of a pair yields that pair's value. */
  lemma LookupDistinct<K, V>(pairs: seq<(K, V)>, i: nat)
    requires DistinctKeys(pairs)
    requires i < |pairs|
    ensures Lookup(pairs, pairs[i].0) == Some(pairs[i].1)
  {
    var r := Lookup(pairs, pairs[i].0);
    assert Keys(pairs)[i] == pairs[i].0;
    var j :| 0 <= j < |pairs| && pairs[j] == (pairs[i].0, r.value);
    assert j == i;
  }
}
