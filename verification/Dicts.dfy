/** Dictionaries that remember insertion order, as sequences of key-value pairs. */
module Dicts {
  import opened Wrappers

  type Dict<K, V> = seq<(K, V)>

  predicate Distinct<K(==), V>(d: Dict<K, V>) {
    forall i, j :: 0 <= i < j < |d| ==> d[i].0 != d[j].0
  }

  function Lookup<K(==), V>(d: Dict<K, V>, k: K): Option<V> {
    if d == [] then None else if d[0].0 == k then Some(d[0].1) else Lookup(d[1..], k)
  }

  function LookupOr<K(==), V>(d: Dict<K, V>, k: K, default: V): V {
    match Lookup(d, k) case None => default case Some(v) => v
  }

  /** `d[k] = v`: an existing key keeps its position, a new one goes to the end. */
  function Put<K(==,!new), V>(d: Dict<K, V>, k: K, v: V): (r: Dict<K, V>)
    ensures forall x :: Lookup(r, x) == if x == k then Some(v) else Lookup(d, x)
    ensures forall i :: 0 <= i < |r| ==> r[i].0 == k || exists j :: 0 <= j < |d| && d[j].0 == r[i].0
  {
    if d == [] then [(k, v)]
    else if d[0].0 == k then [(k, v)] + d[1..]
    else
      var rest := Put(d[1..], k, v);
      assert forall j :: 0 <= j < |d| - 1 ==> d[1..][j] == d[j + 1];
      [d[0]] + rest
  }

  lemma {:induction false} PutDistinct<K(!new), V>(d: Dict<K, V>, k: K, v: V)
    requires Distinct(d)
    ensures Distinct(Put(d, k, v))
  {
    if d != [] && d[0].0 != k {
      PutDistinct(d[1..], k, v);
    }
  }

  lemma {:induction false} LookupAt<K, V>(d: Dict<K, V>, i: nat)
    requires Distinct(d) && i < |d|
    ensures Lookup(d, d[i].0) == Some(d[i].1)
  {
    if i > 0 {
      LookupAt(d[1..], i - 1);
    }
  }

  lemma {:induction false} LookupFound<K, V>(d: Dict<K, V>, k: K) returns (i: nat)
    requires Lookup(d, k).Some?
    ensures i < |d| && d[i] == (k, Lookup(d, k).value)
  {
    if d[0].0 == k {
      i := 0;
    } else {
      var j := LookupFound(d[1..], k);
      i := j + 1;
    }
  }

  /** A new key goes to the end, an existing one keeps its place. */
  lemma {:induction false} PutOrder<K(!new), V>(d: Dict<K, V>, k: K, v: V)
    ensures Lookup(d, k).None? ==> Put(d, k, v) == d + [(k, v)]
    ensures Lookup(d, k).Some? ==>
      |Put(d, k, v)| == |d| && forall i :: 0 <= i < |d| ==> Put(d, k, v)[i].0 == d[i].0
  {
    if d != [] && d[0].0 != k {
      PutOrder(d[1..], k, v);
    }
  }
}
