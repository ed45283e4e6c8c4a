/**
 * Python's `sorted(xs, key=...)`: a stable sort by a key. Both plugins sort
 * their records with it, ReviewMyself by priority and TodoReview by the pair
 * (priority, match name). The model is a stable insertion sort, and the
 * three promises of `sorted` are proved about it: the result is a
 * permutation of the input, it is ordered by the key, and records with equal
 * keys keep their input order.
 */
module StableSort {

  /** `lt` is a strict total order: irreflexive, transitive and connected. */
  ghost predicate StrictTotalOrder<K(!new)>(lt: (K, K) -> bool) {
    (forall a :: !lt(a, a)) &&
    (forall a, b, c :: lt(a, b) && lt(b, c) ==> lt(a, c)) &&
    (forall a, b :: a != b ==> lt(a, b) || lt(b, a))
  }

  /** No element's key is less than the key of an element before it. */
  ghost predicate Sorted<T, K>(s: seq<T>, key: T -> K, lt: (K, K) -> bool) {
    forall i, j :: 0 <= i < j < |s| ==> !lt(key(s[j]), key(s[i]))
  }

  /** The elements of `s` whose key is `k`, in the order of `s`. */
  function WithKey<T, K(==)>(s: seq<T>, key: T -> K, k: K): seq<T> {
    if s == [] then []
    else (if key(s[0]) == k then [s[0]] else []) + WithKey(s[1..], key, k)
  }

  /** Places `x` before the first element of `t` whose key is not less than its own. */
  function Insert<T, K>(x: T, t: seq<T>, key: T -> K, lt: (K, K) -> bool): seq<T> {
    if t == [] || !lt(key(t[0]), key(x)) then [x] + t
    else [t[0]] + Insert(x, t[1..], key, lt)
  }

  /** Insertion sort: the first element is inserted into the sorted rest. */
  function Sort<T, K>(s: seq<T>, key: T -> K, lt: (K, K) -> bool): seq<T> {
    if s == [] then [] else Insert(s[0], Sort(s[1..], key, lt), key, lt)
  }

  lemma {:induction false} InsertPermutes<T, K>(x: T, t: seq<T>, key: T -> K, lt: (K, K) -> bool)
    ensures multiset(Insert(x, t, key, lt)) == multiset(t) + multiset{x}
  {
    if !(t == [] || !lt(key(t[0]), key(x))) {
      var rest := Insert(x, t[1..], key, lt);
      InsertPermutes(x, t[1..], key, lt);
      assert Insert(x, t, key, lt) == [t[0]] + rest;
      assert t == [t[0]] + t[1..];
      assert multiset([t[0]] + rest) == multiset{t[0]} + multiset(rest);
      assert multiset([t[0]] + t[1..]) == multiset{t[0]} + multiset(t[1..]);
    }
  }

  /** The sort is a permutation of its input. */
  lemma {:induction false} SortPermutes<T, K>(s: seq<T>, key: T -> K, lt: (K, K) -> bool)
    ensures multiset(Sort(s, key, lt)) == multiset(s)
  {
    if s != [] {
      SortPermutes(s[1..], key, lt);
      InsertPermutes(s[0], Sort(s[1..], key, lt), key, lt);
      assert s == [s[0]] + s[1..];
    }
  }

  lemma {:induction false} InsertSorted<T, K(!new)>(x: T, t: seq<T>, key: T -> K, lt: (K, K) -> bool)
    requires StrictTotalOrder(lt) && Sorted(t, key, lt)
    ensures Sorted(Insert(x, t, key, lt), key, lt)
  {
    if t == [] || !lt(key(t[0]), key(x)) {
      InsertAtFrontSorted(x, t, key, lt);
    } else {
      var rest := Insert(x, t[1..], key, lt);
      assert Sorted(t[1..], key, lt);
      InsertSorted(x, t[1..], key, lt);
      InsertKeepsLowerBound(x, t, rest, key, lt);
      ConsSorted(t[0], rest, key, lt);
      assert Insert(x, t, key, lt) == [t[0]] + rest;
    }
  }

  /** A first element whose key is not greater than any key of a sorted rest keeps the whole sorted. */
  lemma ConsSorted<T, K>(y: T, rest: seq<T>, key: T -> K, lt: (K, K) -> bool)
    requires Sorted(rest, key, lt)
    requires forall j :: 0 <= j < |rest| ==> !lt(key(rest[j]), key(y))
    ensures Sorted([y] + rest, key, lt)
  {
    var r := [y] + rest;
    forall i, j | 0 <= i < j < |r| ensures !lt(key(r[j]), key(r[i])) {
      assert r[j] == rest[j - 1];
      if i > 0 {
        assert r[i] == rest[i - 1];
      }
    }
  }

  /** Placing `x` in front of a sorted sequence whose first key is not less than its own keeps it sorted. */
  lemma InsertAtFrontSorted<T, K(!new)>(x: T, t: seq<T>, key: T -> K, lt: (K, K) -> bool)
    requires StrictTotalOrder(lt) && Sorted(t, key, lt)
    requires t == [] || !lt(key(t[0]), key(x))
    ensures Sorted([x] + t, key, lt)
  {
    var r := [x] + t;
    forall i, j | 0 <= i < j < |r| ensures !lt(key(r[j]), key(r[i])) {
      if i == 0 && j >= 2 {
        assert r[j] == t[j - 1] && !lt(key(t[j - 1]), key(t[0]));
      }
    }
  }

  /** When `x` goes after the first element, nothing in the rest has a key less than that element's. */
  lemma InsertKeepsLowerBound<T, K(!new)>(x: T, t: seq<T>, rest: seq<T>, key: T -> K, lt: (K, K) -> bool)
    requires StrictTotalOrder(lt) && Sorted(t, key, lt)
    requires t != [] && lt(key(t[0]), key(x)) && rest == Insert(x, t[1..], key, lt)
    ensures forall j :: 0 <= j < |rest| ==> !lt(key(rest[j]), key(t[0]))
  {
    InsertPermutes(x, t[1..], key, lt);
    forall j | 0 <= j < |rest| ensures !lt(key(rest[j]), key(t[0])) {
      assert rest[j] in multiset(rest);
      if rest[j] != x {
        assert rest[j] in multiset(t[1..]);
        var m :| 0 <= m < |t[1..]| && t[1..][m] == rest[j];
        assert t[m + 1] == rest[j];
      }
    }
  }

  /** The sort orders its result by the key. */
  lemma {:induction false} SortSorted<T, K(!new)>(s: seq<T>, key: T -> K, lt: (K, K) -> bool)
    requires StrictTotalOrder(lt)
    ensures Sorted(Sort(s, key, lt), key, lt)
  {
    if s != [] {
      SortSorted(s[1..], key, lt);
      InsertSorted(s[0], Sort(s[1..], key, lt), key, lt);
    }
  }

  lemma {:induction false} WithKeyAppend<T, K>(a: seq<T>, b: seq<T>, key: T -> K, k: K)
    ensures WithKey(a + b, key, k) == WithKey(a, key, k) + WithKey(b, key, k)
  {
    if a != [] {
      WithKeyAppend(a[1..], b, key, k);
      assert (a + b)[1..] == a[1..] + b;
    } else {
      assert a + b == b;
    }
  }

  lemma {:induction false} InsertWithKey<T, K(!new)>(x: T, t: seq<T>, key: T -> K, lt: (K, K) -> bool, k: K)
    requires forall a :: !lt(a, a)
    ensures WithKey(Insert(x, t, key, lt), key, k) == (if key(x) == k then [x] else []) + WithKey(t, key, k)
  {
    if t == [] || !lt(key(t[0]), key(x)) {
      WithKeyAppend([x], t, key, k);
    } else {
      InsertWithKey(x, t[1..], key, lt, k);
      WithKeyAppend([t[0]], Insert(x, t[1..], key, lt), key, k);
      WithKeyAppend([t[0]], t[1..], key, k);
      assert t == [t[0]] + t[1..];
      assert !(key(t[0]) == k && key(x) == k);
    }
  }

  /**
   * Stability: for every key, the elements carrying it appear in the sorted
   * result in the same order as in the input.
   */
  lemma {:induction false} SortStable<T, K(!new)>(s: seq<T>, key: T -> K, lt: (K, K) -> bool, k: K)
    requires forall a :: !lt(a, a)
    ensures WithKey(Sort(s, key, lt), key, k) == WithKey(s, key, k)
  {
    if s != [] {
      SortStable(s[1..], key, lt, k);
      InsertWithKey(s[0], Sort(s[1..], key, lt), key, lt, k);
    }
  }
}
