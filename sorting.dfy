/**
 * Python's `sorted(xs, key=...)` and `list.sort(key=...)`: a stable sort by
 * an integer key. `reverse=True` keeps stability as well, so it is the
 * same sort by the negated key.
 */
module Sorting {

  predicate SortedBy<T>(xs: seq<T>, key: T -> int)
  {
    forall i, j :: 0 <= i < j < |xs| ==> key(xs[i]) <= key(xs[j])
  }

  /** The elements of `xs` with key k, in order. */
  function WithKey<T>(xs: seq<T>, key: T -> int, k: int): (ys: seq<T>)
    ensures |ys| <= |xs|
  {
    if xs == [] then []
    else WithKey(xs[..|xs| - 1], key, k) + if key(xs[|xs| - 1]) == k then [xs[|xs| - 1]] else []
  }

  /** Inserts x after every element whose key is not greater than its own. */
  function Insert<T>(x: T, ys: seq<T>, key: T -> int): (zs: seq<T>)
    ensures |zs| == |ys| + 1
    ensures multiset(zs) == multiset(ys) + multiset{x}
    decreases |ys|
  {
    if ys == [] then [x]
    else if key(x) < key(ys[|ys| - 1]) then
      assert ys == ys[..|ys| - 1] + [ys[|ys| - 1]];
      Insert(x, ys[..|ys| - 1], key) + [ys[|ys| - 1]]
    else ys + [x]
  }

  function SortBy<T>(xs: seq<T>, key: T -> int): (ys: seq<T>)
    ensures |ys| == |xs|
    ensures multiset(ys) == multiset(xs)
  {
    if xs == [] then []
    else
      assert xs == xs[..|xs| - 1] + [xs[|xs| - 1]];
      Insert(xs[|xs| - 1], SortBy(xs[..|xs| - 1], key), key)
  }

  lemma {:induction false} InsertSorted<T>(x: T, ys: seq<T>, key: T -> int)
    requires SortedBy(ys, key)
    ensures SortedBy(Insert(x, ys, key), key)
    decreases |ys|
  {
    if ys != [] && key(x) < key(ys[|ys| - 1]) {
      var init := ys[..|ys| - 1];
      var last := ys[|ys| - 1];
      assert SortedBy(init, key);
      InsertSorted(x, init, key);
      var front := Insert(x, init, key);
      assert Insert(x, ys, key) == front + [last];
      forall i | 0 <= i < |front|
        ensures key(front[i]) <= key(last)
      {
        assert front[i] in multiset(front);
        if front[i] != x {
          assert front[i] in multiset(init);
          var j :| 0 <= j < |init| && init[j] == front[i];
          assert ys[j] == init[j];
        }
      }
    } else if ys != [] {
      assert Insert(x, ys, key) == ys + [x];
    }
  }

  lemma {:induction false} SortBySorted<T>(xs: seq<T>, key: T -> int)
    ensures SortedBy(SortBy(xs, key), key)
  {
    if xs != [] {
      SortBySorted(xs[..|xs| - 1], key);
      InsertSorted(xs[|xs| - 1], SortBy(xs[..|xs| - 1], key), key);
    }
  }

  /** Inserting x into a sorted list puts it after every element with its key. */
  lemma {:induction false} InsertWithKey<T>(x: T, ys: seq<T>, key: T -> int, k: int)
    requires SortedBy(ys, key)
    ensures WithKey(Insert(x, ys, key), key, k) == WithKey(ys, key, k) + if key(x) == k then [x] else []
    decreases |ys|
  {
    if ys != [] && key(x) < key(ys[|ys| - 1]) {
      var init := ys[..|ys| - 1];
      var last := ys[|ys| - 1];
      assert SortedBy(init, key);
      InsertWithKey(x, init, key, k);
      var front := Insert(x, init, key);
      assert Insert(x, ys, key) == front + [last];
      assert Insert(x, ys, key)[..|front|] == front;
      if key(x) == k {
        assert key(last) != k;
        assert WithKey(ys, key, k) == WithKey(init, key, k);
      }
    } else if ys == [] {
      assert Insert(x, ys, key) == [x];
      assert [x][..0] == [];
    } else {
      assert Insert(x, ys, key)[..|ys|] == ys;
    }
  }

  /** The first element with a key is the head when the head has that key. */
  lemma {:induction false} WithKeyHead<T>(ys: seq<T>, key: T -> int)
    requires ys != []
    ensures WithKey(ys, key, key(ys[0])) != [] && WithKey(ys, key, key(ys[0]))[0] == ys[0]
  {
    if |ys| > 1 {
      var init := ys[..|ys| - 1];
      WithKeyHead(init, key);
      assert init[0] == ys[0];
    }
  }

  /** Stability: the elements sharing a key keep their original order. */
  lemma {:induction false} SortByStable<T>(xs: seq<T>, key: T -> int, k: int)
    ensures WithKey(SortBy(xs, key), key, k) == WithKey(xs, key, k)
  {
    if xs != [] {
      SortByStable(xs[..|xs| - 1], key, k);
      SortBySorted(xs[..|xs| - 1], key);
      InsertWithKey(xs[|xs| - 1], SortBy(xs[..|xs| - 1], key), key, k);
    }
  }
}
