/** Grouping a list by a key, as the `reduce`/`forEach` loops that fill a map of arrays do it: each bucket
    keeps the elements with its key in their original order, and the buckets together hold every element
    exactly once. */
module Grouping {

  /** The elements of `xs` whose key is `k`, in order: the bucket a grouping loop builds for `k`. */
  function Select<T(!new), K(==)>(xs: seq<T>, key: T -> K, k: K): (r: seq<T>)
    ensures |r| <= |xs|
    ensures forall i :: 0 <= i < |r| ==> key(r[i]) == k
    ensures forall x :: x in r <==> x in xs && key(x) == k
  {
    if xs == [] then []
    else
      var init := xs[..|xs| - 1];
      var last := xs[|xs| - 1];
      assert xs == init + [last];
      Select(init, key, k) + (if key(last) == k then [last] else [])
  }

  /** A key no element has selects nothing. */
  lemma {:induction false} SelectAbsent<T(!new), K>(xs: seq<T>, key: T -> K, k: K)
    requires forall i :: 0 <= i < |xs| ==> key(xs[i]) != k
    ensures Select(xs, key, k) == []
  {
    if xs != [] {
      SelectAbsent(xs[..|xs| - 1], key, k);
    }
  }

  /** Each element occurs in its bucket as often as in the whole list, and not at all in other buckets. */
  lemma {:induction false} SelectCounts<T(!new), K>(xs: seq<T>, key: T -> K, k: K, x: T)
    ensures multiset(Select(xs, key, k))[x] == if key(x) == k then multiset(xs)[x] else 0
  {
    if xs != [] {
      var init := xs[..|xs| - 1];
      var last := xs[|xs| - 1];
      assert xs == init + [last];
      SelectCounts(init, key, k, x);
    }
  }

  /** Rearranging a list rearranges each of its buckets. */
  lemma SelectPermutation<T(!new), K>(a: seq<T>, b: seq<T>, key: T -> K, k: K)
    requires multiset(a) == multiset(b)
    ensures multiset(Select(a, key, k)) == multiset(Select(b, key, k))
  {
    forall x ensures multiset(Select(a, key, k))[x] == multiset(Select(b, key, k))[x] {
      SelectCounts(a, key, k, x);
      SelectCounts(b, key, k, x);
    }
  }

  predicate Distinct<K(==)>(keys: seq<K>) {
    forall i, j :: 0 <= i < j < |keys| ==> keys[i] != keys[j]
  }

  /** The number of elements the buckets of `keys` hold between them. */
  function TotalSize<T(!new), K(==)>(xs: seq<T>, key: T -> K, keys: seq<K>): nat {
    if keys == [] then 0 else |Select(xs, key, keys[0])| + TotalSize(xs, key, keys[1..])
  }

  lemma DistinctTail<K>(keys: seq<K>)
    requires Distinct(keys) && keys != []
    ensures Distinct(keys[1..]) && keys[0] !in keys[1..]
  {
    forall i, j | 0 <= i < j < |keys[1..]| ensures keys[1..][i] != keys[1..][j] {
      assert keys[1..][i] == keys[i + 1] && keys[1..][j] == keys[j + 1];
    }
    forall i | 0 <= i < |keys[1..]| ensures keys[1..][i] != keys[0] {
      assert keys[1..][i] == keys[i + 1];
    }
  }

  lemma {:induction false} TotalSizeSnoc<T(!new), K>(xs: seq<T>, x: T, key: T -> K, keys: seq<K>)
    requires Distinct(keys)
    ensures TotalSize(xs + [x], key, keys) == TotalSize(xs, key, keys) + if key(x) in keys then 1 else 0
  {
    if keys != [] {
      DistinctTail(keys);
      TotalSizeSnoc(xs, x, key, keys[1..]);
      assert (xs + [x])[..|xs + [x]| - 1] == xs;
      assert key(x) in keys <==> key(x) == keys[0] || key(x) in keys[1..] by {
        assert keys == [keys[0]] + keys[1..];
      }
    }
  }

  /** Bucket sizes add up to the number of elements when every key is a bucket and no bucket is repeated. */
  lemma {:induction false} GroupSizesSum<T(!new), K>(xs: seq<T>, key: T -> K, keys: seq<K>)
    requires Distinct(keys)
    requires forall i :: 0 <= i < |xs| ==> key(xs[i]) in keys
    ensures TotalSize(xs, key, keys) == |xs|
  {
    if xs == [] {
      EmptyTotalSize(key, keys);
    } else {
      var init := xs[..|xs| - 1];
      var last := xs[|xs| - 1];
      assert xs == init + [last];
      GroupSizesSum(init, key, keys);
      TotalSizeSnoc(init, last, key, keys);
    }
  }

  lemma {:induction false} EmptyTotalSize<T(!new), K>(key: T -> K, keys: seq<K>)
    ensures TotalSize([], key, keys) == 0
  {
    if keys != [] {
      EmptyTotalSize(key, keys[1..]);
    }
  }

  // ----- weighted sums -----

  /** The sum of `w` over a list, added left to right as `reduce` adds it. */
  function SumOf<T>(xs: seq<T>, w: T -> real): real {
    if xs == [] then 0.0 else SumOf(xs[..|xs| - 1], w) + w(xs[|xs| - 1])
  }

  lemma {:induction false} SumOfAppend<T>(xs: seq<T>, ys: seq<T>, w: T -> real)
    ensures SumOf(xs + ys, w) == SumOf(xs, w) + SumOf(ys, w)
    decreases |ys|
  {
    if ys != [] {
      var zs := xs + ys;
      assert zs[..|zs| - 1] == xs + ys[..|ys| - 1];
      SumOfAppend(xs, ys[..|ys| - 1], w);
    } else {
      assert xs + ys == xs;
    }
  }

  /** The sum of `w` over the buckets of `keys`. */
  function TotalSum<T(!new), K(==)>(xs: seq<T>, key: T -> K, w: T -> real, keys: seq<K>): real {
    if keys == [] then 0.0 else SumOf(Select(xs, key, keys[0]), w) + TotalSum(xs, key, w, keys[1..])
  }

  lemma SelectSnoc<T(!new), K>(xs: seq<T>, x: T, key: T -> K, k: K)
    ensures Select(xs + [x], key, k) == Select(xs, key, k) + if key(x) == k then [x] else []
  {
    assert (xs + [x])[..|xs + [x]| - 1] == xs;
  }

  lemma SumOfSnoc<T>(xs: seq<T>, x: T, w: T -> real)
    ensures SumOf(xs + [x], w) == SumOf(xs, w) + w(x)
  {
    assert (xs + [x])[..|xs + [x]| - 1] == xs;
  }

  /** One more element adds its weight to its own bucket's sum and leaves the other buckets' sums. */
  lemma BucketSumSnoc<T(!new), K>(xs: seq<T>, x: T, key: T -> K, w: T -> real, k: K)
    ensures SumOf(Select(xs + [x], key, k), w) == SumOf(Select(xs, key, k), w) + if key(x) == k then w(x) else 0.0
  {
    SelectSnoc(xs, x, key, k);
    if key(x) == k {
      SumOfSnoc(Select(xs, key, k), x, w);
    } else {
      assert Select(xs + [x], key, k) == Select(xs, key, k);
    }
  }

  lemma {:induction false} TotalSumSnoc<T(!new), K>(xs: seq<T>, x: T, key: T -> K, w: T -> real, keys: seq<K>)
    requires Distinct(keys)
    ensures TotalSum(xs + [x], key, w, keys) == TotalSum(xs, key, w, keys) + if key(x) in keys then w(x) else 0.0
  {
    if keys != [] {
      var k := keys[0];
      var rest := keys[1..];
      DistinctTail(keys);
      TotalSumSnoc(xs, x, key, w, rest);
      BucketSumSnoc(xs, x, key, w, k);
      SplitWeight(x, key, w, keys);
      AddShifts(SumOf(Select(xs, key, k), w), SumOf(Select(xs + [x], key, k), w),
                TotalSum(xs, key, w, rest), TotalSum(xs + [x], key, w, rest),
                if key(x) == k then w(x) else 0.0, if key(x) in rest then w(x) else 0.0);
    }
  }

  /** With distinct keys, an element's weight counts under the first key or under the others, not both. */
  lemma SplitWeight<T, K>(x: T, key: T -> K, w: T -> real, keys: seq<K>)
    requires Distinct(keys) && keys != []
    ensures (if key(x) in keys then w(x) else 0.0)
            == (if key(x) == keys[0] then w(x) else 0.0) + (if key(x) in keys[1..] then w(x) else 0.0)
  {
    DistinctTail(keys);
    assert keys == [keys[0]] + keys[1..];
  }

  lemma AddShifts(a: real, a2: real, b: real, b2: real, da: real, db: real)
    requires a2 == a + da && b2 == b + db
    ensures a2 + b2 == a + b + (da + db)
  {
  }

  lemma {:induction false} EmptyTotalSum<T(!new), K>(key: T -> K, w: T -> real, keys: seq<K>)
    ensures TotalSum([], key, w, keys) == 0.0
  {
    if keys != [] {
      EmptyTotalSum(key, w, keys[1..]);
    }
  }

  /** Per-bucket sums add up to the overall sum when every key is a bucket and no bucket is repeated. */
  lemma {:induction false} GroupSumsAdd<T(!new), K>(xs: seq<T>, key: T -> K, w: T -> real, keys: seq<K>)
    requires Distinct(keys)
    requires forall i :: 0 <= i < |xs| ==> key(xs[i]) in keys
    ensures TotalSum(xs, key, w, keys) == SumOf(xs, w)
  {
    if xs == [] {
      EmptyTotalSum(key, w, keys);
    } else {
      var init := xs[..|xs| - 1];
      var last := xs[|xs| - 1];
      assert xs == init + [last];
      GroupSumsAdd(init, key, w, keys);
      TotalSumSnoc(init, last, key, w, keys);
    }
  }

  // ----- filtering -----

  /** Array.prototype.filter. */
  function Filter<T(!new)>(xs: seq<T>, keep: T -> bool): (r: seq<T>)
    ensures |r| <= |xs|
    ensures forall x :: x in r <==> x in xs && keep(x)
    ensures (forall i :: 0 <= i < |xs| ==> keep(xs[i])) ==> r == xs
  {
    if xs == [] then []
    else
      var init := xs[..|xs| - 1];
      var last := xs[|xs| - 1];
      assert xs == init + [last];
      Filter(init, keep) + (if keep(last) then [last] else [])
  }

  /** Filtering a list without repeats leaves a list without repeats. */
  lemma {:induction false} FilterDistinct<T(!new)>(xs: seq<T>, keep: T -> bool)
    requires Distinct(xs)
    ensures Distinct(Filter(xs, keep))
  {
    if xs != [] {
      var init := xs[..|xs| - 1];
      var last := xs[|xs| - 1];
      assert Distinct(init) by {
        forall i, j | 0 <= i < j < |init| ensures init[i] != init[j] {
          assert init[i] == xs[i] && init[j] == xs[j];
        }
      }
      FilterDistinct(init, keep);
      assert last !in init by {
        forall i | 0 <= i < |init| ensures init[i] != last {
          assert init[i] == xs[i];
        }
      }
    }
  }

  /** The distinct keys of a list in order of first appearance, as a Set or Map iterates them. */
  function KeysInOrder<T(!new), K(==,!new)>(xs: seq<T>, key: T -> K): (keys: seq<K>)
    ensures Distinct(keys)
    ensures forall k :: k in keys <==> exists i :: 0 <= i < |xs| && key(xs[i]) == k
  {
    if xs == [] then []
    else
      var init := xs[..|xs| - 1];
      var last := xs[|xs| - 1];
      var before := KeysInOrder(init, key);
      assert forall i :: 0 <= i < |init| ==> init[i] == xs[i];
      if key(last) in before then before else before + [key(last)]
  }

  // ----- rearrangements -----

  lemma SameMembers<T>(a: seq<T>, b: seq<T>)
    requires multiset(a) == multiset(b)
    ensures forall x :: x in a <==> x in b
  {
    forall x ensures x in a <==> x in b {
      assert x in a <==> x in multiset(a);
      assert x in b <==> x in multiset(b);
    }
  }

  /** A rearrangement of a list without repeats has no repeats. */
  lemma DistinctPermutation<T>(a: seq<T>, b: seq<T>)
    requires multiset(a) == multiset(b) && Distinct(a)
    ensures Distinct(b)
  {
    forall i, j | 0 <= i < j < |b| ensures b[i] != b[j] {
      DistinctCountsOne(a, b[i]);
      assert b == b[..j] + [b[j]] + b[j + 1..];
      assert b[..j][i] == b[i];
      assert multiset(b) == multiset(b[..j]) + multiset{b[j]} + multiset(b[j + 1..]);
    }
  }

  lemma {:induction false} DistinctCountsOne<T>(s: seq<T>, x: T)
    requires Distinct(s)
    ensures multiset(s)[x] <= 1
  {
    if s != [] {
      DistinctTail(s);
      DistinctCountsOne(s[1..], x);
      assert s == [s[0]] + s[1..];
    }
  }
}
