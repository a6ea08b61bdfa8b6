/** pandas' `groupby(key)` reduced to its meaning: the values of a keyed
    sequence collected per key, each key once, keys in first-seen order and
    values in input order. The per-group reduction (`sum`, `mean`) is applied
    by the caller. */
module Grouping {

  datatype Bucket<K, V> = Bucket(key: K, values: seq<V>)

  /** The values paired with `k`, in input order: the reference meaning of
      one group. */
  function ValuesFor<K(==), V>(pairs: seq<(K, V)>, k: K): seq<V> {
    if |pairs| == 0 then []
    else ValuesFor(pairs[..|pairs| - 1], k)
         + (if pairs[|pairs| - 1].0 == k then [pairs[|pairs| - 1].1] else [])
  }

  /** Some pair carries key `k`. */
  predicate HasKey<K(==), V>(pairs: seq<(K, V)>, k: K) {
    exists j :: 0 <= j < |pairs| && pairs[j].0 == k
  }

  /** Some bucket is keyed `k`. */
  predicate InBuckets<K(==), V>(bs: seq<Bucket<K, V>>, k: K) {
    exists i :: 0 <= i < |bs| && bs[i].key == k
  }

  /** No key labels two buckets. */
  predicate DistinctKeys<K(==), V>(bs: seq<Bucket<K, V>>) {
    forall i, j :: 0 <= i < j < |bs| ==> bs[i].key != bs[j].key
  }

  /** `bs` is a grouping of `pairs`: keys are distinct, each bucket holds
      exactly the values of its key and is not empty, and the buckets' keys
      are exactly the keys occurring in `pairs`. */
  ghost predicate IsGrouping<K(!new), V>(bs: seq<Bucket<K, V>>, pairs: seq<(K, V)>) {
    && DistinctKeys(bs)
    && (forall i :: 0 <= i < |bs| ==> bs[i].values == ValuesFor(pairs, bs[i].key))
    && (forall i :: 0 <= i < |bs| ==> |bs[i].values| > 0)
    && (forall k :: InBuckets(bs, k) <==> HasKey(pairs, k))
  }

  /** Adds `v` to the bucket keyed `k`, opening a new last bucket when there
      is none. */
  function Place<K(==), V>(bs: seq<Bucket<K, V>>, k: K, v: V): (r: seq<Bucket<K, V>>)
    requires DistinctKeys(bs)
    ensures |r| == if InBuckets(bs, k) then |bs| else |bs| + 1
    ensures forall i :: 0 <= i < |bs| ==>
              r[i].key == bs[i].key
              && r[i].values == bs[i].values + (if bs[i].key == k then [v] else [])
    ensures !InBuckets(bs, k) ==> r[|bs|] == Bucket(k, [v])
    ensures DistinctKeys(r)
  {
    if |bs| == 0 then [Bucket(k, [v])]
    else if bs[0].key == k then [Bucket(k, bs[0].values + [v])] + bs[1..]
    else
      var rest := Place(bs[1..], k, v);
      assert InBuckets(bs, k) <==> InBuckets(bs[1..], k) by {
        if InBuckets(bs, k) {
          var i :| 0 <= i < |bs| && bs[i].key == k;
          assert bs[1..][i - 1].key == k;
        }
      }
      [bs[0]] + rest
  }

  /** Groups `pairs` by key, folding `Place` over the input. */
  function GroupBy<K(==,!new), V>(pairs: seq<(K, V)>): (r: seq<Bucket<K, V>>)
    ensures IsGrouping(r, pairs)
  {
    if |pairs| == 0 then []
    else
      var init := pairs[..|pairs| - 1];
      var last := pairs[|pairs| - 1];
      var prev := GroupBy(init);
      GroupStep(prev, init, last);
      assert pairs == init + [last];
      Place(prev, last.0, last.1)
  }

  /** One `Place` step keeps a grouping a grouping of the extended input. */
  lemma GroupStep<K(!new), V>(prev: seq<Bucket<K, V>>, init: seq<(K, V)>, last: (K, V))
    requires IsGrouping(prev, init)
    ensures IsGrouping(Place(prev, last.0, last.1), init + [last])
  {
    GroupStepKeys(prev, init, last);
    if !InBuckets(prev, last.0) {
      EmptyValuesFor(init, last.0);
    }
    GroupStepValues(prev, init, last);
  }

  lemma GroupStepKeys<K(!new), V>(prev: seq<Bucket<K, V>>, init: seq<(K, V)>, last: (K, V))
    requires DistinctKeys(prev)
    requires forall k :: InBuckets(prev, k) <==> HasKey(init, k)
    ensures forall k :: InBuckets(Place(prev, last.0, last.1), k) <==> HasKey(init + [last], k)
  {
    var r := Place(prev, last.0, last.1);
    HasKeySnoc(init, last);
    forall k ensures InBuckets(r, k) <==> InBuckets(prev, k) || k == last.0 {
      if InBuckets(r, k) && k != last.0 {
        var i :| 0 <= i < |r| && r[i].key == k;
        assert prev[i].key == k;
      }
      if InBuckets(prev, k) {
        var i :| 0 <= i < |prev| && prev[i].key == k;
        assert r[i].key == k;
      }
      if k == last.0 && !InBuckets(prev, k) {
        assert r[|prev|].key == k;
      }
    }
  }

  lemma GroupStepValues<K, V>(prev: seq<Bucket<K, V>>, init: seq<(K, V)>, last: (K, V))
    requires DistinctKeys(prev)
    requires forall i :: 0 <= i < |prev| ==> prev[i].values == ValuesFor(init, prev[i].key)
    requires forall i :: 0 <= i < |prev| ==> |prev[i].values| > 0
    requires !InBuckets(prev, last.0) ==> ValuesFor(init, last.0) == []
    ensures var r := Place(prev, last.0, last.1);
            && (forall i :: 0 <= i < |r| ==> r[i].values == ValuesFor(init + [last], r[i].key))
            && (forall i :: 0 <= i < |r| ==> |r[i].values| > 0)
  {
    var pairs := init + [last];
    assert pairs[..|pairs| - 1] == init;
  }

  lemma HasKeySnoc<K, V>(init: seq<(K, V)>, last: (K, V))
    ensures forall k :: HasKey(init + [last], k) <==> HasKey(init, k) || k == last.0
  {
    var pairs := init + [last];
    forall k | HasKey(init, k) ensures HasKey(pairs, k) {
      var j :| 0 <= j < |init| && init[j].0 == k;
      assert pairs[j].0 == k;
    }
    assert pairs[|init|].0 == last.0;
  }

  /** A key that never occurs collects no values. */
  lemma {:induction false} EmptyValuesFor<K, V>(pairs: seq<(K, V)>, k: K)
    requires !HasKey(pairs, k)
    ensures ValuesFor(pairs, k) == []
  {
    if |pairs| > 0 {
      var init := pairs[..|pairs| - 1];
      EmptyValuesFor(init, k);
    }
  }

  /** Grouping a concatenation collects each key's values from both parts,
      the first part's first. */
  lemma {:induction false} ValuesForAppend<K, V>(a: seq<(K, V)>, b: seq<(K, V)>, k: K)
    ensures ValuesFor(a + b, k) == ValuesFor(a, k) + ValuesFor(b, k)
    decreases |b|
  {
    if |b| == 0 {
      assert a + b == a;
    } else {
      assert (a + b)[..|a + b| - 1] == a + b[..|b| - 1];
      ValuesForAppend(a, b[..|b| - 1], k);
    }
  }
}
