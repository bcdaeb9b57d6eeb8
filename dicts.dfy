/** Python's `dict`, with the property the extraction code relies on:
    `values()` comes out in the order in which keys were first inserted. */
module Dicts {

  /** `order` lists the keys in first-insertion order; `m` holds the values. */
  datatype Dict<K, V> = Dict(order: seq<K>, m: map<K, V>)

  /** Every listed key is present, every present key is listed, and no key
      is listed twice. */
  ghost predicate Valid<K, V>(d: Dict<K, V>) {
    && (forall i :: 0 <= i < |d.order| ==> d.order[i] in d.m)
    && (forall k :: k in d.m ==> k in d.order)
    && (forall a, b :: 0 <= a < b < |d.order| ==> d.order[a] != d.order[b])
    && |d.m| == |d.order|
  }

  /** `d[k] = v`: a new key goes to the end of the order; an existing key keeps
      its place and only its value changes. */
  function Put<K, V>(d: Dict<K, V>, k: K, v: V): (r: Dict<K, V>)
    requires Valid(d)
    ensures Valid(r)
    ensures k in r.m && r.m[k] == v
    ensures forall k' :: k' in d.m && k' != k ==> k' in r.m && r.m[k'] == d.m[k']
    ensures r.order == if k in d.m then d.order else d.order + [k]
  {
    if k in d.m then Dict(d.order, d.m[k := v])
    else Dict(d.order + [k], d.m[k := v])
  }

  /** `dict(pairs)`: the pairs are stored one after the other with `Put`. */
  function FromPairs<K, V>(pairs: seq<(K, V)>): (r: Dict<K, V>)
    ensures Valid(r)
    decreases |pairs|
  {
    if pairs == [] then Dict([], map[])
    else
      var last := pairs[|pairs| - 1];
      Put(FromPairs(pairs[..|pairs| - 1]), last.0, last.1)
  }

  /** `d.values()`, in insertion order. */
  function Values<K, V>(d: Dict<K, V>): (vs: seq<V>)
    requires Valid(d)
    ensures |vs| == |d.m|
    ensures forall i :: 0 <= i < |vs| ==> vs[i] == d.m[d.order[i]]
  {
    seq(|d.order|, i requires 0 <= i < |d.order| => d.m[d.order[i]])
  }

  ghost predicate DistinctKeys<K, V>(pairs: seq<(K, V)>) {
    forall a, b :: 0 <= a < b < |pairs| ==> pairs[a].0 != pairs[b].0
  }

  /** The keys of `pairs`, in order. */
  function KeysOf<K, V>(pairs: seq<(K, V)>): (ks: seq<K>)
    ensures |ks| == |pairs|
    ensures forall i :: 0 <= i < |pairs| ==> ks[i] == pairs[i].0
  {
    seq(|pairs|, i requires 0 <= i < |pairs| => pairs[i].0)
  }

  /** Built from pairs with distinct keys, the dict lists its keys in the
      order of the pairs, so it holds one entry per pair. */
  lemma {:induction false} FromDistinctPairsOrder<K, V>(pairs: seq<(K, V)>)
    requires DistinctKeys(pairs)
    ensures FromPairs(pairs).order == KeysOf(pairs)
    ensures |FromPairs(pairs).m| == |pairs|
    decreases |pairs|
  {
    if pairs != [] {
      var n := |pairs| - 1;
      var init := pairs[..n];
      assert DistinctKeys(init);
      FromDistinctPairsOrder(init);
      LastKeyIsNew(pairs);
      KeysOfSnoc(pairs);
    }
  }

  /** The last of pairs with distinct keys brings a key the dict built from
      the earlier pairs does not hold. */
  lemma LastKeyIsNew<K, V>(pairs: seq<(K, V)>)
    requires |pairs| > 0 && DistinctKeys(pairs)
    requires FromPairs(pairs[..|pairs| - 1]).order == KeysOf(pairs[..|pairs| - 1])
    ensures pairs[|pairs| - 1].0 !in FromPairs(pairs[..|pairs| - 1]).m
  {
    var n := |pairs| - 1;
    var d := FromPairs(pairs[..n]);
    forall i | 0 <= i < |d.order|
      ensures d.order[i] != pairs[n].0
    {
      assert d.order[i] == pairs[i].0;
    }
    assert pairs[n].0 !in d.order;
  }

  lemma KeysOfSnoc<K, V>(pairs: seq<(K, V)>)
    requires |pairs| > 0
    ensures KeysOf(pairs) == KeysOf(pairs[..|pairs| - 1]) + [pairs[|pairs| - 1].0]
  {
  }

  /** Built from pairs with distinct keys, the dict maps each key to the
      value it was paired with. */
  lemma {:induction false} FromDistinctPairsLookup<K, V>(pairs: seq<(K, V)>)
    requires DistinctKeys(pairs)
    ensures forall i :: 0 <= i < |pairs| ==>
      pairs[i].0 in FromPairs(pairs).m && FromPairs(pairs).m[pairs[i].0] == pairs[i].1
    decreases |pairs|
  {
    if pairs != [] {
      var n := |pairs| - 1;
      var init := pairs[..n];
      assert pairs == init + [pairs[n]];
      var d := FromPairs(init);
      assert FromPairs(pairs) == Put(d, pairs[n].0, pairs[n].1);
      DistinctPrefix(pairs);
      FromDistinctPairsLookup(init);
      FromDistinctPairsOrder(init);
      LastKeyIsNew(pairs);
    }
  }

  lemma DistinctPrefix<K, V>(pairs: seq<(K, V)>)
    requires |pairs| > 0 && DistinctKeys(pairs)
    ensures DistinctKeys(pairs[..|pairs| - 1])
  {
  }

  /** Built from pairs with distinct keys, `values()` yields the pairs'
      values in the order of the pairs. */
  lemma ValuesOfDistinctPairs<K, V>(pairs: seq<(K, V)>)
    requires DistinctKeys(pairs)
    ensures |Values(FromPairs(pairs))| == |pairs|
    ensures forall i :: 0 <= i < |pairs| ==> Values(FromPairs(pairs))[i] == pairs[i].1
  {
    FromDistinctPairsOrder(pairs);
    FromDistinctPairsLookup(pairs);
  }
}
