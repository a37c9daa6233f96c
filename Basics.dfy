/**
 * Small value-level building blocks shared by the rest of the model: an
 * optional value (the C# `string?`), duplicate-free sequences in first-seen
 * order (LINQ `Distinct`), and the two `System.String` operations the
 * builders rely on, `Trim` and `Contains`.
 */
module Basics {

  datatype Option<T> = None | Some(value: T)

  predicate NoDuplicates<T(==)>(s: seq<T>)
  {
    forall i, j | 0 <= i < j < |s| :: s[i] != s[j]
  }

  lemma ConcatAssociates<T>(a: seq<T>, b: seq<T>, c: seq<T>)
    ensures (a + b) + c == a + (b + c)
  {
  }

  /** Appending an element not yet present keeps a sequence free of repetitions. */
  lemma NoDuplicatesSnoc<T>(s: seq<T>, x: T)
    requires NoDuplicates(s) && x !in s
    ensures NoDuplicates(s + [x])
  {
  }

  /** Two sequences free of repetitions and with no element in common concatenate to one. */
  lemma NoDuplicatesConcat<T>(a: seq<T>, b: seq<T>)
    requires NoDuplicates(a) && NoDuplicates(b) && forall x | x in a :: x !in b
    ensures NoDuplicates(a + b)
  {
    forall i, j | 0 <= i < j < |a + b| ensures (a + b)[i] != (a + b)[j] {
      if i < |a| && j >= |a| {
        assert (a + b)[i] in a && (a + b)[j] == b[j - |a|];
      }
    }
  }

  /**
   * `s` without repetitions, each element kept at its first occurrence: what
   * LINQ `Distinct` yields, and what a loop that appends an element only when
   * it is not yet in the list builds.
   */
  function Distinct<T(==)>(s: seq<T>): (r: seq<T>)
    ensures NoDuplicates(r)
    ensures (forall x | x in r :: x in s) && (forall x | x in s :: x in r)
    ensures |r| <= |s|
  {
    if s == [] then []
    else
      var p := Distinct(s[..|s| - 1]);
      if s[|s| - 1] in p then p else p + [s[|s| - 1]]
  }

  /** Appending to the input appends to the output only an element not seen before. */
  lemma DistinctSnoc<T>(s: seq<T>, x: T)
    ensures Distinct(s + [x]) == if x in s then Distinct(s) else Distinct(s) + [x]
  {
    assert (s + [x])[..|s + [x]| - 1] == s;
  }

  /** Where `x` first occurs in `s`. */
  function FirstIndex<T(==)>(s: seq<T>, x: T): (i: nat)
    requires x in s
    ensures i < |s| && s[i] == x && x !in s[..i]
  {
    if s[0] == x then 0
    else
      var j := FirstIndex(s[1..], x);
      assert s[..j + 1] == [s[0]] + s[1..][..j];
      j + 1
  }

  /** Appending to a sequence does not move the first occurrence of an element it already holds. */
  lemma FirstIndexPrefix<T>(t: seq<T>, y: T, x: T)
    requires x in t
    ensures FirstIndex(t + [y], x) == FirstIndex(t, x)
  {
    var s := t + [y];
    var i, k := FirstIndex(t, x), FirstIndex(s, x);
    forall j | 0 <= j < k ensures s[j] != x {
      assert s[..k][j] == s[j];
    }
    forall j | 0 <= j < i ensures t[j] != x {
      assert t[..i][j] == t[j];
    }
    assert s[i] == x;
    assert k <= i && t[k] == x;
  }

  /** `Distinct` lists the elements in the order of their first occurrences in `s`. */
  lemma {:induction false} DistinctFirstSeen<T>(s: seq<T>)
    ensures forall i, j | 0 <= i < j < |Distinct(s)| :: FirstIndex(s, Distinct(s)[i]) < FirstIndex(s, Distinct(s)[j])
    decreases |s|
  {
    if s != [] {
      var t, x := s[..|s| - 1], s[|s| - 1];
      assert s == t + [x];
      DistinctFirstSeen(t);
      var p := Distinct(t);
      forall y | y in p ensures FirstIndex(s, y) == FirstIndex(t, y) {
        FirstIndexPrefix(t, x, y);
      }
      if x !in p {
        var k := FirstIndex(s, x);
        forall i | 0 <= i < |p| ensures FirstIndex(s, p[i]) < k {
          assert p[i] in p;
        }
      }
    }
  }

  /** The elements of `s` that belong to `ks`, in order (LINQ `Where` with a membership test). */
  function Keep<T(==)>(s: seq<T>, ks: set<T>): (r: seq<T>)
    ensures (forall x | x in r :: x in s && x in ks) && (forall x | x in s && x in ks :: x in r)
    ensures |r| <= |s|
    ensures NoDuplicates(s) ==> NoDuplicates(r)
    decreases |s|
  {
    if s == [] then []
    else
      var p := Keep(s[..|s| - 1], ks);
      assert NoDuplicates(s) ==> NoDuplicates(s[..|s| - 1]);
      if s[|s| - 1] in ks then p + [s[|s| - 1]] else p
  }

  lemma KeepSnoc<T>(s: seq<T>, x: T, ks: set<T>)
    ensures Keep(s + [x], ks) == if x in ks then Keep(s, ks) + [x] else Keep(s, ks)
  {
    assert (s + [x])[..|s + [x]| - 1] == s;
  }

  /** A sequence without repetitions has as many elements as the set of its elements. */
  lemma {:induction false} NoDuplicatesCard<T>(s: seq<T>)
    requires NoDuplicates(s)
    ensures |set x | x in s| == |s|
    decreases |s|
  {
    if s != [] {
      var init := s[..|s| - 1];
      assert NoDuplicates(init);
      NoDuplicatesCard(init);
      assert (set x | x in s) == (set x | x in init) + {s[|s| - 1]};
      assert s[|s| - 1] !in init;
    }
  }

  /** Without repetitions, every element occurs at most once. */
  lemma {:induction false} NoDuplicatesOnce<T>(s: seq<T>, x: T)
    requires NoDuplicates(s)
    ensures multiset(s)[x] <= 1
    decreases |s|
  {
    if s != [] {
      var init := s[..|s| - 1];
      assert s == init + [s[|s| - 1]];
      assert NoDuplicates(init);
      NoDuplicatesOnce(init, x);
      assert s[|s| - 1] !in init;
    }
  }

  /** A sequence in which every element occurs at most once has no repetitions. */
  lemma NoDuplicatesFromCounts<T>(s: seq<T>)
    requires forall x :: multiset(s)[x] <= 1
    ensures NoDuplicates(s)
  {
    forall i, j | 0 <= i < j < |s| ensures s[i] != s[j] {
      assert s == s[..j] + [s[j]] + s[j + 1..];
      assert s[i] in multiset(s[..j]);
      assert multiset(s)[s[j]] == multiset(s[..j])[s[j]] + 1 + multiset(s[j + 1..])[s[j]];
    }
  }

  /** A rearrangement of a sequence without repetitions has none. */
  lemma MultisetNoDuplicates<T>(a: seq<T>, b: seq<T>)
    requires NoDuplicates(a) && multiset(a) == multiset(b)
    ensures NoDuplicates(b)
  {
    forall x ensures multiset(b)[x] <= 1 {
      NoDuplicatesOnce(a, x);
    }
    NoDuplicatesFromCounts(b);
  }

  /** Character classes `char.IsWhiteSpace` accepts: Unicode space, line and paragraph separators, and U+0009-U+000D, U+0085. */
  predicate IsWhiteSpace(c: char)
  {
    c == ' ' || '\t' <= c <= '\r' || c == '\U{85}' || c == '\U{A0}' || c == '\U{1680}'
    || '\U{2000}' <= c <= '\U{200A}' || c == '\U{2028}' || c == '\U{2029}'
    || c == '\U{202F}' || c == '\U{205F}' || c == '\U{3000}'
  }

  /** Leading white space removed: the longest suffix that does not start with white space. */
  function TrimStart(s: string): (r: string)
    ensures |r| <= |s| && r == s[|s| - |r|..]
    ensures forall k | 0 <= k < |s| - |r| :: IsWhiteSpace(s[k])
    ensures r == [] || !IsWhiteSpace(r[0])
  {
    if s != [] && IsWhiteSpace(s[0]) then TrimStart(s[1..]) else s
  }

  /** Trailing white space removed: the longest prefix that does not end with white space. */
  function TrimEnd(s: string): (r: string)
    ensures |r| <= |s| && r == s[..|r|]
    ensures forall k | |r| <= k < |s| :: IsWhiteSpace(s[k])
    ensures r == [] || !IsWhiteSpace(r[|r| - 1])
  {
    if s != [] && IsWhiteSpace(s[|s| - 1]) then TrimEnd(s[..|s| - 1]) else s
  }

  /** `String.Trim()`. */
  function Trim(s: string): string
  {
    TrimEnd(TrimStart(s))
  }

  /** The bounds of the slice `Trim` keeps. */
  lemma TrimBounds(s: string) returns (i: nat, j: nat)
    ensures i <= j <= |s| && Trim(s) == s[i..j]
    ensures forall k | 0 <= k < i :: IsWhiteSpace(s[k])
    ensures forall k | j <= k < |s| :: IsWhiteSpace(s[k])
  {
    var a := TrimStart(s);
    i := |s| - |a|;
    var r := TrimEnd(a);
    j := i + |r|;
    assert r == s[i..j];
    forall k | j <= k < |s| ensures IsWhiteSpace(s[k]) {
      assert s[k] == a[k - i];
    }
  }

  /**
   * What `Trim` keeps is a contiguous slice of its input that neither starts
   * nor ends with white space, and everything it drops is white space.
   */
  lemma TrimSlice(s: string)
    ensures exists i, j | 0 <= i <= j <= |s| ::
      (Trim(s) == s[i..j] && forall k | 0 <= k < i || j <= k < |s| :: IsWhiteSpace(s[k]))
    ensures Trim(s) == [] || (!IsWhiteSpace(Trim(s)[0]) && !IsWhiteSpace(Trim(s)[|Trim(s)| - 1]))
  {
    var i, j := TrimBounds(s);
    assert forall k | 0 <= k < i || j <= k < |s| :: IsWhiteSpace(s[k]);
    var r := Trim(s);
    if r != [] {
      assert r[0] == TrimStart(s)[0];
    }
  }

  /** Trimming twice is trimming once. */
  lemma TrimIdempotent(s: string)
    ensures Trim(Trim(s)) == Trim(s)
  {
    var r := Trim(s);
    TrimSlice(s);
    assert TrimStart(r) == r;
    if r != [] {
      assert !IsWhiteSpace(r[|r| - 1]);
    }
    assert TrimEnd(r) == r;
  }

  /** `String.Contains(t)` on `s`, ordinal comparison: `t` is a prefix of some suffix of `s`. */
  predicate Contains(s: string, t: string)
  {
    t <= s || (s != [] && Contains(s[1..], t))
  }

  /** Lists the elements of a set, each once, in an order the model leaves open (a hash set's enumeration order). */
  method Enumerate<T>(s: set<T>) returns (r: seq<T>)
    ensures NoDuplicates(r) && (set x | x in r) == s
  {
    r := [];
    var rest := s;
    while rest != {}
      invariant rest <= s && NoDuplicates(r)
      invariant forall x :: x in r <==> x in s && x !in rest
      decreases |rest|
    {
      var x :| x in rest;
      r := r + [x];
      rest := rest - {x};
    }
  }
}
