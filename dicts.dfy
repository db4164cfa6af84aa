/**
  Python dicts with string keys, as ordered lists of (key, value) pairs in
  insertion order.
*/
module Dicts {
  import opened Wrappers

  /** d.get(key): the value stored under key, None when the key is absent. */
  function Lookup<V>(pairs: seq<(string, V)>, key: string): (r: Option<V>)
    ensures r.Some? <==> exists k :: 0 <= k < |pairs| && pairs[k].0 == key
    ensures r.Some? ==> (key, r.value) in pairs
  {
    if |pairs| == 0 then None
    else if pairs[0].0 == key then Some(pairs[0].1)
    else Lookup(pairs[1..], key)
  }

  predicate HasKey<V>(pairs: seq<(string, V)>, key: string)
  {
    Lookup(pairs, key).Some?
  }

  function Keys<V>(pairs: seq<(string, V)>): (r: seq<string>)
    ensures |r| == |pairs| && forall k :: 0 <= k < |pairs| ==> r[k] == pairs[k].0
  {
    seq(|pairs|, k requires 0 <= k < |pairs| => pairs[k].0)
  }

  /** No key occurs twice, as in every Python dict. */
  predicate DistinctKeys<V>(pairs: seq<(string, V)>)
  {
    forall i, j :: 0 <= i < j < |pairs| ==> pairs[i].0 != pairs[j].0
  }

  /** d[key] = v: an existing key keeps its position, a new key goes last. */
  function Put<V>(pairs: seq<(string, V)>, key: string, v: V): (r: seq<(string, V)>)
    ensures Lookup(r, key) == Some(v)
    ensures forall k :: k != key ==> Lookup(r, k) == Lookup(pairs, k)
    ensures |r| == if HasKey(pairs, key) then |pairs| else |pairs| + 1
  {
    if |pairs| == 0 then [(key, v)]
    else if pairs[0].0 == key then [(key, v)] + pairs[1..]
    else [pairs[0]] + Put(pairs[1..], key, v)
  }

  /** Assignment keeps a dict's keys distinct. */
  lemma {:induction false} PutDistinct<V>(pairs: seq<(string, V)>, key: string, v: V)
    requires DistinctKeys(pairs)
    ensures DistinctKeys(Put(pairs, key, v))
  {
    if |pairs| > 0 && pairs[0].0 != key {
      var rest := pairs[1..];
      PutDistinct(rest, key, v);
      var t := Put(rest, key, v);
      assert forall k :: 0 <= k < |rest| ==> rest[k] == pairs[k + 1];
      assert Lookup(rest, pairs[0].0).None?;
      var r := [pairs[0]] + t;
      forall i, j | 0 <= i < j < |r| ensures r[i].0 != r[j].0 {
        if i == 0 {
          assert r[j] == t[j - 1];
        } else {
          assert r[i] == t[i - 1] && r[j] == t[j - 1];
        }
      }
    } else if |pairs| > 0 {
      var r := Put(pairs, key, v);
      forall i, j | 0 <= i < j < |r| ensures r[i].0 != r[j].0 {
        assert r[j] == pairs[j];
        if i > 0 {
          assert r[i] == pairs[i];
        }
      }
    }
  }
}
