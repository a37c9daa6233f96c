/**
 * LINQ `OrderBy` with an integer key: a stable sort. Elements are inserted
 * one at a time, each after every element whose key is not greater, so
 * elements with equal keys keep their input order. `OrderByDescending` is
 * `OrderBy` on the negated key.
 */
module Ordering {

  predicate SortedBy<T>(s: seq<T>, key: T -> int)
  {
    forall i, j | 0 <= i < j < |s| :: key(s[i]) <= key(s[j])
  }

  /** The elements of `s` whose key is `k`, in order. */
  function WithKey<T>(s: seq<T>, key: T -> int, k: int): seq<T>
    decreases |s|
  {
    if s == [] then [] else WithKey(s[..|s| - 1], key, k) + if key(s[|s| - 1]) == k then [s[|s| - 1]] else []
  }

  lemma WithKeySnoc<T>(s: seq<T>, x: T, key: T -> int, k: int)
    ensures WithKey(s + [x], key, k) == WithKey(s, key, k) + if key(x) == k then [x] else []
  {
    assert (s + [x])[..|s|] == s;
  }

  /** `x` placed into the sorted `t` after every element whose key is not greater than its own. */
  function Insert<T>(x: T, t: seq<T>, key: T -> int): seq<T>
    decreases |t|
  {
    if t == [] || key(t[|t| - 1]) <= key(x) then t + [x]
    else Insert(x, t[..|t| - 1], key) + [t[|t| - 1]]
  }

  /** The stable sort of `s` by `key`. */
  function OrderBy<T>(s: seq<T>, key: T -> int): seq<T>
    decreases |s|
  {
    if s == [] then [] else Insert(s[|s| - 1], OrderBy(s[..|s| - 1], key), key)
  }

  /** Inserting adds exactly `x`. */
  lemma {:induction false} InsertCount<T>(x: T, t: seq<T>, key: T -> int)
    ensures multiset(Insert(x, t, key)) == multiset(t) + multiset{x}
    decreases |t|
  {
    if !(t == [] || key(t[|t| - 1]) <= key(x)) {
      var init, last := t[..|t| - 1], t[|t| - 1];
      assert t == init + [last];
      InsertCount(x, init, key);
    }
  }

  /** Inserting into a sorted sequence keeps it sorted. */
  lemma {:induction false} InsertSorted<T>(x: T, t: seq<T>, key: T -> int)
    requires SortedBy(t, key)
    ensures SortedBy(Insert(x, t, key), key)
    decreases |t|
  {
    if !(t == [] || key(t[|t| - 1]) <= key(x)) {
      var init, last := t[..|t| - 1], t[|t| - 1];
      assert t == init + [last];
      InsertSorted(x, init, key);
      InsertCount(x, init, key);
      var r := Insert(x, init, key);
      assert Insert(x, t, key) == r + [last];
      forall i, j | 0 <= i < j < |r + [last]| ensures key((r + [last])[i]) <= key((r + [last])[j]) {
        if j == |r| {
          var y := r[i];
          assert y in multiset(r);
          if y != x {
            assert y in multiset(init);
            var m :| 0 <= m < |init| && init[m] == y;
            assert t[m] == y;
          }
        }
      }
    }
  }

  /** Inserting places `x` after the elements with its key. */
  lemma {:induction false} InsertStable<T>(x: T, t: seq<T>, key: T -> int, k: int)
    ensures WithKey(Insert(x, t, key), key, k) == WithKey(t, key, k) + if key(x) == k then [x] else []
    decreases |t|
  {
    if t == [] || key(t[|t| - 1]) <= key(x) {
      WithKeySnoc(t, x, key, k);
    } else {
      var init, last := t[..|t| - 1], t[|t| - 1];
      assert t == init + [last];
      InsertStable(x, init, key, k);
      WithKeySnoc(Insert(x, init, key), last, key, k);
      WithKeySnoc(init, last, key, k);
    }
  }

  /** `OrderBy` sorts, keeps every element with its multiplicity, and keeps the order among equal keys. */
  lemma {:induction false} OrderByIsStableSort<T>(s: seq<T>, key: T -> int)
    ensures SortedBy(OrderBy(s, key), key)
    ensures multiset(OrderBy(s, key)) == multiset(s)
    ensures forall k :: WithKey(OrderBy(s, key), key, k) == WithKey(s, key, k)
    decreases |s|
  {
    if s != [] {
      var init, last := s[..|s| - 1], s[|s| - 1];
      assert s == init + [last];
      OrderByIsStableSort(init, key);
      InsertSorted(last, OrderBy(init, key), key);
      InsertCount(last, OrderBy(init, key), key);
      forall k ensures WithKey(OrderBy(s, key), key, k) == WithKey(s, key, k) {
        InsertStable(last, OrderBy(init, key), key, k);
        WithKeySnoc(init, last, key, k);
      }
    }
  }

  /** The position of the first element of `s` with the least key. */
  function FirstMinIndex<T>(s: seq<T>, key: T -> int): (i: nat)
    requires s != []
    ensures i < |s|
    ensures forall j | 0 <= j < |s| :: key(s[i]) <= key(s[j])
    ensures forall j | 0 <= j < i :: key(s[i]) < key(s[j])
    decreases |s|
  {
    if |s| == 1 then 0
    else
      var i := FirstMinIndex(s[..|s| - 1], key);
      assert forall j | 0 <= j < |s| - 1 :: s[j] == s[..|s| - 1][j];
      if key(s[|s| - 1]) < key(s[i]) then |s| - 1 else i
  }

  /** The first element with key `k` heads the elements with key `k`. */
  lemma {:induction false} WithKeyFirst<T>(s: seq<T>, key: T -> int, i: nat)
    requires i < |s| && forall j | 0 <= j < i :: key(s[j]) != key(s[i])
    ensures WithKey(s, key, key(s[i])) != [] && WithKey(s, key, key(s[i]))[0] == s[i]
    decreases |s|
  {
    var init := s[..|s| - 1];
    assert s == init + [s[|s| - 1]];
    WithKeySnoc(init, s[|s| - 1], key, key(s[i]));
    if i < |s| - 1 {
      assert init[i] == s[i] && forall j | 0 <= j < i :: init[j] == s[j];
      WithKeyFirst(init, key, i);
    } else {
      WithKeyEmpty(init, key, key(s[i]));
    }
  }

  /** No element has key `k`: nothing is kept. */
  lemma {:induction false} WithKeyEmpty<T>(s: seq<T>, key: T -> int, k: int)
    requires forall j | 0 <= j < |s| :: key(s[j]) != k
    ensures WithKey(s, key, k) == []
    decreases |s|
  {
    if s != [] {
      assert forall j | 0 <= j < |s| - 1 :: s[..|s| - 1][j] == s[j];
      WithKeyEmpty(s[..|s| - 1], key, k);
    }
  }

  /** The head of a sorted sequence has the least key. */
  lemma SortedHeadLeast<T>(r: seq<T>, key: T -> int, x: T)
    requires SortedBy(r, key) && x in r
    ensures key(r[0]) <= key(x)
  {
    var m :| 0 <= m < |r| && r[m] == x;
    if m > 0 {
      assert key(r[0]) <= key(r[m]);
    }
  }

  /** An element whose key is the least of `s` has a key no greater than any element of `s`. */
  lemma LeastBelow<T>(s: seq<T>, key: T -> int, i: nat, x: T)
    requires i < |s| && (forall j | 0 <= j < |s| :: key(s[i]) <= key(s[j])) && x in s
    ensures key(s[i]) <= key(x)
  {
    var n :| 0 <= n < |s| && s[n] == x;
  }

  /** What the first element of a stable sort is: the first element of the input with the least key. */
  lemma OrderByFirst<T>(s: seq<T>, key: T -> int)
    requires s != []
    ensures OrderBy(s, key) != [] && OrderBy(s, key)[0] == s[FirstMinIndex(s, key)]
  {
    var i := FirstMinIndex(s, key);
    var r := OrderBy(s, key);
    OrderByIsStableSort(s, key);
    assert s[i] in multiset(r) && r[0] in multiset(s);
    SortedHeadLeast(r, key, s[i]);
    LeastBelow(s, key, i, r[0]);
    WithKeyFirst(s, key, i);
    WithKeyFirst(r, key, 0);
    assert WithKey(r, key, key(s[i])) == WithKey(s, key, key(s[i]));
  }
}
