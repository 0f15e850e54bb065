/** Stable sorting by an integer key. `Array.prototype.sort` is stable (ECMA-262 since
    2019), so for a comparator `(a, b) => key(a) - key(b)` every conforming engine yields
    the same order as this insertion sort. */
module Sorting {
  ghost predicate SortedBy<T>(s: seq<T>, key: T -> int) {
    forall i, j :: 0 <= i < j < |s| ==> key(s[i]) <= key(s[j])
  }

  /** The elements of `s` whose key is `k`, in their order in `s`. */
  function WithKey<T>(s: seq<T>, key: T -> int, k: int): seq<T> {
    if s == [] then []
    else (if key(s[0]) == k then [s[0]] else []) + WithKey(s[1..], key, k)
  }

  lemma WithKeyCons<T>(x: T, s: seq<T>, key: T -> int, k: int)
    ensures WithKey([x] + s, key, k) == (if key(x) == k then [x] else []) + WithKey(s, key, k)
  {
    assert ([x] + s)[1..] == s;
  }

  /** Inserts `x` before the first element whose key is not smaller than its own. */
  function Insert<T>(x: T, s: seq<T>, key: T -> int): (r: seq<T>)
    ensures |r| == |s| + 1
  {
    if s == [] || key(x) <= key(s[0]) then [x] + s
    else [s[0]] + Insert(x, s[1..], key)
  }

  lemma {:induction false} InsertMultiset<T>(x: T, s: seq<T>, key: T -> int)
    ensures multiset(Insert(x, s, key)) == multiset(s) + multiset{x}
  {
    if s != [] && key(s[0]) < key(x) {
      InsertMultiset(x, s[1..], key);
      assert s == [s[0]] + s[1..];
    }
  }

  lemma {:induction false} InsertLowerBound<T>(x: T, s: seq<T>, key: T -> int, lo: int)
    requires lo <= key(x)
    requires forall i :: 0 <= i < |s| ==> lo <= key(s[i])
    ensures forall i :: 0 <= i < |Insert(x, s, key)| ==> lo <= key(Insert(x, s, key)[i])
  {
    if s != [] && key(s[0]) < key(x) {
      InsertLowerBound(x, s[1..], key, lo);
    }
  }

  lemma {:induction false} InsertSorted<T>(x: T, s: seq<T>, key: T -> int)
    requires SortedBy(s, key)
    ensures SortedBy(Insert(x, s, key), key)
  {
    if s != [] && key(s[0]) < key(x) {
      var t := Insert(x, s[1..], key);
      InsertSorted(x, s[1..], key);
      InsertLowerBound(x, s[1..], key, key(s[0]));
      assert Insert(x, s, key) == [s[0]] + t;
    }
  }

  function SortBy<T>(s: seq<T>, key: T -> int): (r: seq<T>)
    ensures |r| == |s|
    ensures multiset(r) == multiset(s)
    ensures SortedBy(r, key)
  {
    if s == [] then []
    else
      assert s == [s[0]] + s[1..];
      InsertSorted(s[0], SortBy(s[1..], key), key);
      InsertMultiset(s[0], SortBy(s[1..], key), key);
      Insert(s[0], SortBy(s[1..], key), key)
  }

  lemma {:induction false} InsertWithKey<T>(x: T, s: seq<T>, key: T -> int, k: int)
    ensures WithKey(Insert(x, s, key), key, k)
            == (if key(x) == k then [x] else []) + WithKey(s, key, k)
  {
    if s == [] || key(x) <= key(s[0]) {
      WithKeyCons(x, s, key, k);
    } else {
      var t := Insert(x, s[1..], key);
      var w := WithKey(s[1..], key, k);
      assert Insert(x, s, key) == [s[0]] + t;
      InsertWithKey(x, s[1..], key, k);
      WithKeyCons(s[0], t, key, k);
      assert WithKey(s, key, k) == (if key(s[0]) == k then [s[0]] else []) + w;
      if key(x) == k {
        assert WithKey(s, key, k) == w;
      } else if key(s[0]) == k {
        assert WithKey(t, key, k) == w;
      }
    }
  }

  /** Stability: among elements with equal keys, the sorted order is the original order. */
  lemma {:induction false} SortByStable<T>(s: seq<T>, key: T -> int, k: int)
    ensures WithKey(SortBy(s, key), key, k) == WithKey(s, key, k)
  {
    if s != [] {
      SortByStable(s[1..], key, k);
      InsertWithKey(s[0], SortBy(s[1..], key), key, k);
    }
  }

  lemma {:induction false} InsertBeforeLast<T>(x: T, s: seq<T>, m: T, key: T -> int)
    requires key(x) <= key(m)
    ensures Insert(x, s + [m], key) == Insert(x, s, key) + [m]
  {
    if s != [] && key(s[0]) < key(x) {
      assert (s + [m])[1..] == s[1..] + [m];
      InsertBeforeLast(x, s[1..], m, key);
    }
  }

  /** An element whose key is at least every other key, appended last, stays last. */
  lemma {:induction false} SortByAppendMax<T>(s: seq<T>, m: T, key: T -> int)
    requires forall i :: 0 <= i < |s| ==> key(s[i]) <= key(m)
    ensures SortBy(s + [m], key) == SortBy(s, key) + [m]
  {
    if s != [] {
      assert (s + [m])[1..] == s[1..] + [m];
      SortByAppendMax(s[1..], m, key);
      InsertBeforeLast(s[0], SortBy(s[1..], key), m, key);
    }
  }
}
