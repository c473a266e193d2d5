/**
 * Grouping items into buckets by a key, as a `defaultdict(list)` filled in one pass does:
 * `keys[i]` is the key of `items[i]`.
 */
module Grouping {
  import opened Sequences
  import opened Dicts

  /** The items whose key is `k`, in their relative order. */
  function Bucket<T, K(==)>(items: seq<T>, keys: seq<K>, k: K): seq<T>
    requires |keys| == |items|
    decreases |items|
  {
    if items == [] then []
    else
      var n := |items| - 1;
      Bucket(items[..n], keys[..n], k) + if keys[n] == k then [items[n]] else []
  }

  /** A bucket has as many items as its key occurs. */
  lemma {:induction false} BucketSize<T, K>(items: seq<T>, keys: seq<K>, k: K)
    requires |keys| == |items|
    ensures |Bucket(items, keys, k)| == multiset(keys)[k]
    decreases |items|
  {
    if items != [] {
      var n := |items| - 1;
      BucketSize(items[..n], keys[..n], k);
      assert keys == keys[..n] + [keys[n]];
    }
  }

  /** Every item of a bucket is an item whose key is the bucket's key. */
  lemma {:induction false} BucketMembers<T, K>(items: seq<T>, keys: seq<K>, k: K)
    requires |keys| == |items|
    ensures forall x :: x in Bucket(items, keys, k) ==> exists j :: 0 <= j < |items| && items[j] == x && keys[j] == k
    decreases |items|
  {
    if items != [] {
      var n := |items| - 1;
      var b := Bucket(items[..n], keys[..n], k);
      BucketMembers(items[..n], keys[..n], k);
      assert Bucket(items, keys, k) == b + if keys[n] == k then [items[n]] else [];
      forall x | x in Bucket(items, keys, k)
        ensures exists j :: 0 <= j < |items| && items[j] == x && keys[j] == k
      {
        if x in b {
          var j :| 0 <= j < n && items[..n][j] == x && keys[..n][j] == k;
          assert items[j] == x && keys[j] == k;
        } else {
          assert items[n] == x && keys[n] == k;
        }
      }
    }
  }

  /** Every item lands in the bucket of its key. */
  lemma {:induction false} BucketComplete<T, K>(items: seq<T>, keys: seq<K>, k: K)
    requires |keys| == |items|
    ensures forall j :: 0 <= j < |items| && keys[j] == k ==> items[j] in Bucket(items, keys, k)
    decreases |items|
  {
    if items != [] {
      var n := |items| - 1;
      BucketComplete(items[..n], keys[..n], k);
      forall j | 0 <= j < |items| && keys[j] == k ensures items[j] in Bucket(items, keys, k) {
        if j < n {
          assert items[..n][j] == items[j] && keys[..n][j] == keys[j];
        }
      }
    }
  }

  /** The positions whose key is `k`, ascending. */
  function Positions<K(==)>(keys: seq<K>, k: K): (ps: seq<nat>)
    ensures forall t :: 0 <= t < |ps| ==> ps[t] < |keys| && keys[ps[t]] == k
    ensures forall s, t :: 0 <= s < t < |ps| ==> ps[s] < ps[t]
    ensures forall j :: 0 <= j < |keys| && keys[j] == k ==> j in ps
    decreases |keys|
  {
    if keys == [] then []
    else
      var n := |keys| - 1;
      Positions(keys[..n], k) + if keys[n] == k then [n] else []
  }

  /** Positions are listed in increasing order, so a smaller position comes earlier. */
  lemma PositionsOrder<K>(keys: seq<K>, k: K, s: nat, t: nat)
    requires s < |Positions(keys, k)| && t < |Positions(keys, k)|
    requires Positions(keys, k)[s] < Positions(keys, k)[t]
    ensures s < t
  {
  }

  /** A bucket lists the items at the positions of its key, in increasing position order. */
  lemma {:induction false} BucketInOrder<T, K>(items: seq<T>, keys: seq<K>, k: K)
    requires |keys| == |items|
    ensures |Bucket(items, keys, k)| == |Positions(keys, k)|
    ensures forall t :: 0 <= t < |Positions(keys, k)| ==> Bucket(items, keys, k)[t] == items[Positions(keys, k)[t]]
    decreases |items|
  {
    if items != [] {
      var n := |items| - 1;
      BucketInOrder(items[..n], keys[..n], k);
      var b, ps := Bucket(items[..n], keys[..n], k), Positions(keys[..n], k);
      var hit := keys[n] == k;
      assert Bucket(items, keys, k) == b + if hit then [items[n]] else [];
      assert Positions(keys, k) == ps + if hit then [n] else [];
      forall t | 0 <= t < |Positions(keys, k)|
        ensures Bucket(items, keys, k)[t] == items[Positions(keys, k)[t]]
      {
        if t < |ps| {
          assert Bucket(items, keys, k)[t] == b[t] == items[..n][ps[t]];
        }
      }
    }
  }

  /** The bucket sizes in key order. */
  function Sizes<K(==,!new), T>(d: Dict<K, seq<T>>): seq<nat>
    requires d.Valid()
  {
    seq(|d.keys|, i requires 0 <= i < |d.keys| => |d.entries[d.keys[i]]|)
  }

  /** The state of the grouping loop after the first `i` items. */
  ghost predicate GroupedUpTo<T, K(!new)>(d: Dict<K, seq<T>>, items: seq<T>, keys: seq<K>, i: nat)
    requires |keys| == |items| && i <= |items|
  {
    && d.Valid()
    && d.keys == Distinct(keys[..i])
    && (forall k :: k in d.entries ==> d.entries[k] == Bucket(items[..i], keys[..i], k))
    && Sum(Sizes(d)) == i
  }

  lemma PrefixStep<T, K>(items: seq<T>, keys: seq<K>, i: nat, k: K)
    requires |keys| == |items| && i < |items|
    ensures Bucket(items[..i + 1], keys[..i + 1], k) ==
      Bucket(items[..i], keys[..i], k) + if keys[i] == k then [items[i]] else []
    ensures Distinct(keys[..i + 1]) ==
      var p := Distinct(keys[..i]); if keys[i] in p then p else p + [keys[i]]
  {
    assert items[..i + 1][..i] == items[..i];
    assert keys[..i + 1][..i] == keys[..i];
  }

  /** Appending to one list, or adding a list of one, adds one to the total size. */
  lemma AppendSize<T, K(!new)>(d: Dict<K, seq<T>>, k: K, x: T)
    requires d.Valid()
    ensures
      var d' := d.Set(k, (if k in d.entries then d.entries[k] else []) + [x]);
      Sum(Sizes(d')) == Sum(Sizes(d)) + 1
  {
    var d' := d.Set(k, (if k in d.entries then d.entries[k] else []) + [x]);
    if k in d.entries {
      var p := FirstIndex(d.keys, k);
      assert Sizes(d') == Sizes(d)[p := Sizes(d)[p] + 1];
      SumUpdate(Sizes(d), p, Sizes(d)[p] + 1);
    } else {
      assert Sizes(d')[..|Sizes(d)|] == Sizes(d);
    }
  }

  /** `grouped[keys[i]].append(items[i])` extends the grouping by one item. */
  lemma {:induction false} AppendStep<T, K(!new)>(d: Dict<K, seq<T>>, items: seq<T>, keys: seq<K>, i: nat)
    requires |keys| == |items| && i < |items|
    requires GroupedUpTo(d, items, keys, i)
    ensures
      var k := keys[i];
      GroupedUpTo(d.Set(k, (if k in d.entries then d.entries[k] else []) + [items[i]]), items, keys, i + 1)
  {
    var k := keys[i];
    var d' := d.Set(k, (if k in d.entries then d.entries[k] else []) + [items[i]]);
    AppendSize(d, k, items[i]);
    PrefixStep(items, keys, i, k);
    assert d'.keys == Distinct(keys[..i + 1]);
    if k !in d.entries {
      BucketSize(items[..i], keys[..i], k);
      assert k !in keys[..i];
      assert Bucket(items[..i], keys[..i], k) == [];
    }
    forall k' | k' in d'.entries ensures d'.entries[k'] == Bucket(items[..i + 1], keys[..i + 1], k') {
      PrefixStep(items, keys, i, k');
    }
  }
}
