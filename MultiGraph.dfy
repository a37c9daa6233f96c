/**
 * The directed multigraph store of the call-flow tool.
 *
 * A graph keeps two nested indices: `outgoing[src][dst]` and
 * `incoming[dst][src]`, each the ordered list ("bucket") of the edge objects
 * placed from `src` to `dst`. Parallel edges are allowed; vertices and edges
 * are compared by identity, which is what the type parameters' equality is.
 */
module MultiGraph {

  /** Sum of `f` over the values of a map (the C# `Values.Sum(...)`). */
  ghost function Total<K, X>(m: map<K, X>, f: X -> nat): nat
    decreases |m|
  {
    if m == map[] then 0
    else
      var k :| k in m;
      f(m[k]) + Total(m - {k}, f)
  }

  /** The order in which `Total` picks keys does not matter: any key may go first. */
  lemma {:induction false} TotalPick<K, X>(m: map<K, X>, k: K, f: X -> nat)
    requires k in m
    ensures Total(m, f) == f(m[k]) + Total(m - {k}, f)
    decreases |m|
  {
    var j :| j in m && Total(m, f) == f(m[j]) + Total(m - {j}, f);
    if j != k {
      var mj, mk := m - {j}, m - {k};
      assert mj - {k} == mk - {j};
      TotalPick(mj, k, f);
      TotalPick(mk, j, f);
    }
  }

  /** Replacing (or adding) one entry changes the sum by the difference of that entry. */
  lemma TotalUpdate<K, X>(m: map<K, X>, k: K, x: X, f: X -> nat)
    ensures Total(m[k := x], f) + (if k in m then f(m[k]) else 0) == Total(m, f) + f(x)
  {
    TotalPick(m[k := x], k, f);
    if k in m {
      TotalPick(m, k, f);
      assert m[k := x] - {k} == m - {k};
    } else {
      assert m[k := x] - {k} == m;
    }
  }

  /** Removing one entry lowers the sum by that entry. */
  lemma TotalRemove<K, X>(m: map<K, X>, k: K, f: X -> nat)
    ensures Total(m - {k}, f) + (if k in m then f(m[k]) else 0) == Total(m, f)
  {
    if k in m {
      TotalPick(m, k, f);
    } else {
      assert m - {k} == m;
    }
  }

  /** A sum over entries that are all positive is zero exactly when the map is empty. */
  lemma {:induction false} TotalZero<K, X>(m: map<K, X>, f: X -> nat)
    requires forall k :: k in m ==> f(m[k]) > 0
    ensures Total(m, f) == 0 <==> m == map[]
    ensures Total(m, f) >= |m|
    decreases |m|
  {
    if m != map[] {
      var k :| k in m;
      TotalPick(m, k, f);
      TotalZero(m - {k}, f);
    }
  }

  /** Multiset union of `f` over the values of a map: what enumerating every value in turn yields, in some order. */
  ghost function Bag<K, X, E>(m: map<K, X>, f: X -> multiset<E>): multiset<E>
    decreases |m|
  {
    if m == map[] then multiset{}
    else
      var k :| k in m;
      f(m[k]) + Bag(m - {k}, f)
  }

  /** As with `Total`, any key may go first. */
  lemma {:induction false} BagPick<K, X, E>(m: map<K, X>, k: K, f: X -> multiset<E>)
    requires k in m
    ensures Bag(m, f) == f(m[k]) + Bag(m - {k}, f)
    decreases |m|
  {
    var j :| j in m && Bag(m, f) == f(m[j]) + Bag(m - {j}, f);
    if j != k {
      var mj, mk := m - {j}, m - {k};
      assert mj - {k} == mk - {j};
      BagPick(mj, k, f);
      BagPick(mk, j, f);
    }
  }

  /** The size of the union is the sum of the sizes. */
  lemma {:induction false} BagSize<K, X, E>(m: map<K, X>, f: X -> multiset<E>, g: X -> nat)
    requires forall x :: |f(x)| == g(x)
    ensures |Bag(m, f)| == Total(m, g)
    decreases |m|
  {
    if m != map[] {
      var k :| k in m;
      BagPick(m, k, f);
      TotalPick(m, k, g);
      BagSize(m - {k}, f, g);
    }
  }

  /** An element is in the union exactly when it is in the image of some value. */
  lemma {:induction false} BagMembers<K, X, E>(m: map<K, X>, f: X -> multiset<E>, e: E)
    ensures e in Bag(m, f) <==> exists k | k in m :: e in f(m[k])
    decreases |m|
  {
    if m != map[] {
      var k :| k in m;
      var rest := m - {k};
      BagPick(m, k, f);
      BagMembers(rest, f, e);
      if e in Bag(rest, f) {
        var j :| j in rest && e in f(rest[j]);
        assert j in m && e in f(m[j]);
      } else if e !in f(m[k]) {
        forall j | j in m ensures e !in f(m[j]) {
          if j != k {
            assert j in rest && rest[j] == m[j];
          }
        }
      }
    }
  }

  /** Replacing (or adding) one entry changes the union by that entry's image. */
  lemma BagUpdate<K, X, E>(m: map<K, X>, k: K, x: X, f: X -> multiset<E>)
    ensures Bag(m[k := x], f) + (if k in m then f(m[k]) else multiset{}) == Bag(m, f) + f(x)
  {
    BagPick(m[k := x], k, f);
    if k in m {
      BagPick(m, k, f);
      assert m[k := x] - {k} == m - {k};
    } else {
      assert m[k := x] - {k} == m;
    }
  }

  /** Removing one entry removes its image from the union. */
  lemma BagRemove<K, X, E>(m: map<K, X>, k: K, f: X -> multiset<E>)
    ensures Bag(m - {k}, f) + (if k in m then f(m[k]) else multiset{}) == Bag(m, f)
  {
    if k in m {
      BagPick(m, k, f);
    } else {
      assert m - {k} == m;
    }
  }

  function Len<E>(bucket: seq<E>): nat { |bucket| }

  /** The entries of one bucket, as a multiset. */
  function Entries<E>(bucket: seq<E>): multiset<E> { multiset(bucket) }

  /** The entries of all buckets of one inner index. */
  ghost function BucketsBag<V, E>(inner: map<V, seq<E>>): multiset<E>
  {
    Bag(inner, Entries)
  }

  /** The entries of all buckets of a whole index. */
  ghost function IndexBag<V, E>(index: map<V, map<V, seq<E>>>): multiset<E>
  {
    Bag(index, BucketsBag)
  }

  /** An index holds as many entries as its summed bucket lengths. */
  lemma IndexBagSize<V, E>(index: map<V, map<V, seq<E>>>)
    ensures |IndexBag(index)| == IndexTotal(index)
  {
    forall inner: map<V, seq<E>> ensures |BucketsBag(inner)| == BucketsTotal(inner) {
      BagSize(inner, Entries, Len);
    }
    BagSize(index, BucketsBag, BucketsTotal);
  }

  /** An element is among an index's entries exactly when some bucket holds it. */
  lemma IndexBagMembers<V, E>(index: map<V, map<V, seq<E>>>, e: E)
    ensures e in IndexBag(index) <==> exists s, d | s in index && d in index[s] :: e in index[s][d]
  {
    BagMembers(index, BucketsBag, e);
    forall s | s in index ensures e in BucketsBag(index[s]) <==> exists d | d in index[s] :: e in index[s][d] {
      BagMembers(index[s], Entries, e);
    }
  }

  /** Number of edges held by one inner index (the degree of its owner). */
  ghost function BucketsTotal<V, E>(inner: map<V, seq<E>>): nat
  {
    Total(inner, Len)
  }

  /** Summed bucket lengths of a vertex's inner index; 0 for a vertex the index does not know. */
  ghost function Degree<V, E>(index: map<V, map<V, seq<E>>>, v: V): nat
  {
    if v in index then BucketsTotal(index[v]) else 0
  }

  /** Summed bucket lengths of a whole index. */
  ghost function IndexTotal<V, E>(index: map<V, map<V, seq<E>>>): nat
  {
    Total(index, BucketsTotal)
  }

  /** The bucket from `s` to `d` of an index, empty when there is none. */
  function Bucket<V, E>(index: map<V, map<V, seq<E>>>, s: V, d: V): seq<E>
  {
    if s in index && d in index[s] then index[s][d] else []
  }

  /** Every bucket other than the one from `s` to `d` is the same in both indices. */
  ghost predicate SameBucketsExcept<V, E>(a: map<V, map<V, seq<E>>>, b: map<V, map<V, seq<E>>>, s: V, d: V)
  {
    (forall x, y | x in a && y in a[x] && (x != s || y != d) :: Bucket(b, x, y) == a[x][y]) &&
    (forall x, y | x in b && y in b[x] && (x != s || y != d) :: Bucket(a, x, y) == b[x][y])
  }

  /** Every vertex other than `s` has the same count in both indices. */
  ghost predicate SameDegreesExcept<V, E>(a: map<V, map<V, seq<E>>>, b: map<V, map<V, seq<E>>>, s: V)
  {
    forall x | x in a.Keys + b.Keys && x != s :: Degree(b, x) == Degree(a, x)
  }

  /** The buckets of an outgoing index that end at `d`, keyed by their source. */
  function Column<V, E>(out: map<V, map<V, seq<E>>>, d: V): map<V, seq<E>>
  {
    map s | s in out && d in out[s] :: out[s][d]
  }

  /** The incoming index an outgoing index determines: every known vertex with its column. */
  function Transpose<V, E>(out: map<V, map<V, seq<E>>>): map<V, map<V, seq<E>>>
  {
    map d | d in out :: Column(out, d)
  }

  /** Every bucket ends at a known vertex and holds at least one edge. */
  ghost predicate Closed<V, E>(out: map<V, map<V, seq<E>>>)
  {
    forall s, d {:trigger out[s][d]} | s in out && d in out[s] :: d in out && out[s][d] != []
  }

  /**
   * The invariant every mutator keeps: no bucket is empty, and the incoming
   * index is the outgoing one read the other way round, so both know the same
   * vertices and `incoming[d][s]` is `outgoing[s][d]`, in the same order.
   */
  ghost predicate Mirrored<V, E>(out: map<V, map<V, seq<E>>>, inc: map<V, map<V, seq<E>>>)
  {
    Closed(out) && inc == Transpose(out)
  }

  /** What the mirror invariant says about one pair of vertices, seen from both indices. */
  lemma MirroredPair<V, E>(out: map<V, map<V, seq<E>>>, inc: map<V, map<V, seq<E>>>, s: V, d: V)
    requires Mirrored(out, inc)
    ensures inc.Keys == out.Keys
    ensures (s in out && d in out[s]) <==> (d in inc && s in inc[d])
    ensures Bucket(inc, d, s) == Bucket(out, s, d)
    ensures s in out && d in out[s] ==> out[s][d] != []
  {
  }

  /** Registering an unknown vertex registers it, with nothing incoming, in the transpose too. */
  lemma TransposeRegister<V, E>(out: map<V, map<V, seq<E>>>, v: V)
    requires Closed(out) && v !in out
    ensures Closed(out[v := map[]])
    ensures Transpose(out[v := map[]]) == Transpose(out)[v := map[]]
  {
    var o := out[v := map[]];
    forall x | x in o ensures Column(o, x) == Transpose(out)[v := map[]][x] {
      ColumnRegister(out, v, x);
    }
  }

  lemma ColumnRegister<V, E>(out: map<V, map<V, seq<E>>>, v: V, x: V)
    requires Closed(out) && v !in out
    ensures Column(out[v := map[]], x) == if x == v then map[] else Column(out, x)
  {
    var c := Column(out[v := map[]], x);
    if x == v {
      forall s | s in out ensures v !in out[s] {
      }
      assert c.Keys == {};
    } else {
      assert c.Keys == Column(out, x).Keys;
    }
  }

  /** Replacing an existing pair's bucket replaces the mirrored bucket. */
  lemma TransposeSet<V, E>(out: map<V, map<V, seq<E>>>, s: V, d: V, b: seq<E>)
    requires Closed(out) && s in out && d in out && b != []
    ensures Closed(out[s := out[s][d := b]])
    ensures Transpose(out[s := out[s][d := b]]) == Transpose(out)[d := Transpose(out)[d][s := b]]
  {
    var o := out[s := out[s][d := b]];
    forall x | x in o ensures Column(o, x) == Transpose(out)[d := Transpose(out)[d][s := b]][x] {
      ColumnSet(out, s, d, b, x);
    }
  }

  lemma ColumnSet<V, E>(out: map<V, map<V, seq<E>>>, s: V, d: V, b: seq<E>, x: V)
    requires s in out
    ensures Column(out[s := out[s][d := b]], x) == if x == d then Column(out, d)[s := b] else Column(out, x)
  {
    var c := Column(out[s := out[s][d := b]], x);
    if x == d {
      assert c.Keys == Column(out, d).Keys + {s};
    } else {
      assert c.Keys == Column(out, x).Keys;
    }
  }

  /** Dropping a pair's bucket drops the mirrored bucket. */
  lemma TransposeDrop<V, E>(out: map<V, map<V, seq<E>>>, s: V, d: V)
    requires Closed(out) && s in out && d in out
    ensures Closed(out[s := out[s] - {d}])
    ensures Transpose(out[s := out[s] - {d}]) == Transpose(out)[d := Transpose(out)[d] - {s}]
  {
    var o := out[s := out[s] - {d}];
    forall x | x in o ensures Column(o, x) == Transpose(out)[d := Transpose(out)[d] - {s}][x] {
      ColumnDrop(out, s, d, x);
    }
  }

  lemma ColumnDrop<V, E>(out: map<V, map<V, seq<E>>>, s: V, d: V, x: V)
    requires s in out
    ensures Column(out[s := out[s] - {d}], x) == if x == d then Column(out, d) - {s} else Column(out, x)
  {
    var c := Column(out[s := out[s] - {d}], x);
    if x == d {
      assert c.Keys == Column(out, d).Keys - {s};
    } else {
      assert c.Keys == Column(out, x).Keys;
    }
  }

  /** Every vertex other than `v`, each with the entry for `v` dropped from its inner index. */
  function Detach<V, E>(index: map<V, map<V, seq<E>>>, v: V): map<V, map<V, seq<E>>>
  {
    map u | u in index && u != v :: index[u] - {v}
  }

  /** Detaching a vertex from the outgoing index detaches it from the transpose. */
  lemma TransposeDetach<V, E>(out: map<V, map<V, seq<E>>>, v: V)
    requires Closed(out)
    ensures Closed(Detach(out, v))
    ensures Transpose(Detach(out, v)) == Detach(Transpose(out), v)
  {
    var o := Detach(out, v);
    forall x | x in o ensures Column(o, x) == Detach(Transpose(out), v)[x] {
      ColumnDetach(out, v, x);
    }
  }

  lemma ColumnDetach<V, E>(out: map<V, map<V, seq<E>>>, v: V, x: V)
    requires x != v
    ensures Column(Detach(out, v), x) == Column(out, x) - {v}
  {
    assert Column(Detach(out, v), x).Keys == Column(out, x).Keys - {v};
  }

  /** Detaching a vertex the index does not know changes nothing. */
  lemma DetachAbsent<V, E>(out: map<V, map<V, seq<E>>>, v: V)
    requires Closed(out) && v !in out
    ensures Detach(out, v) == out
  {
    forall u | u in out ensures out[u] - {v} == out[u] {
      assert v !in out[u];
    }
  }

  /** Detaching `v` deletes `v` and keeps every bucket between the other vertices. */
  lemma DetachBuckets<V, E>(index: map<V, map<V, seq<E>>>, v: V)
    ensures Detach(index, v).Keys == index.Keys - {v}
    ensures forall x, y | x != v && y != v :: Bucket(Detach(index, v), x, y) == Bucket(index, x, y)
    ensures forall x | x in Detach(index, v) :: v !in Detach(index, v)[x]
  {
  }

  /** The vertices with neither an outgoing nor an incoming bucket. */
  function IsolatedIn<V, E>(out: map<V, map<V, seq<E>>>, inc: map<V, map<V, seq<E>>>): set<V>
  {
    set v | v in out && out[v] == map[] && v in inc && inc[v] == map[]
  }

  /** The index without the vertices in `ks`. */
  function Without<V, E>(index: map<V, map<V, seq<E>>>, ks: set<V>): map<V, map<V, seq<E>>>
  {
    map v | v in index && v !in ks :: index[v]
  }

  /** Deleting vertices whose inner index is empty deletes no edge. */
  lemma {:induction false} WithoutEmptyTotal<V, E>(index: map<V, map<V, seq<E>>>, ks: set<V>)
    requires forall k | k in ks && k in index :: index[k] == map[]
    ensures IndexTotal(Without(index, ks)) == IndexTotal(index)
    decreases |index|
  {
    if k :| k in ks && k in index {
      var rest := index - {k};
      WithoutEmptyTotal(rest, ks);
      assert Without(rest, ks) == Without(index, ks);
      TotalRemove(index, k, BucketsTotal);
      assert BucketsTotal(index[k]) == 0 by {
        assert index[k] == map[];
      }
    } else {
      assert Without(index, ks) == index;
    }
  }

  /** Deleting vertices whose inner index is empty keeps every entry. */
  lemma {:induction false} WithoutEmptyBag<V, E>(index: map<V, map<V, seq<E>>>, ks: set<V>)
    requires forall k | k in ks && k in index :: index[k] == map[]
    ensures IndexBag(Without(index, ks)) == IndexBag(index)
    decreases |index|
  {
    if k :| k in ks && k in index {
      var rest := index - {k};
      WithoutEmptyBag(rest, ks);
      assert Without(rest, ks) == Without(index, ks);
      BagRemove(index, k, BucketsBag);
      assert BucketsBag(index[k]) == multiset{} by {
        assert index[k] == map[];
      }
    } else {
      assert Without(index, ks) == index;
    }
  }

  /** Deleting vertices that no bucket touches deletes them from the transpose and keeps it closed. */
  lemma TransposeWithout<V, E>(out: map<V, map<V, seq<E>>>, ks: set<V>)
    requires Closed(out)
    requires forall k | k in ks && k in out :: out[k] == map[] && Column(out, k) == map[]
    ensures Closed(Without(out, ks))
    ensures Transpose(Without(out, ks)) == Without(Transpose(out), ks)
  {
    var o := Without(out, ks);
    forall s | s in o ensures forall d | d in o[s] :: d in o && o[s][d] != [] {
      forall d | d in o[s] ensures d !in ks {
        assert d in out && s in Column(out, d);
      }
    }
    forall x | x in o ensures Column(o, x) == Without(Transpose(out), ks)[x] {
      assert Column(o, x).Keys == Column(out, x).Keys;
    }
  }

  /** The index with `v` registered: unchanged if known, else with an empty inner index for `v`. */
  function Registered<V, E>(index: map<V, map<V, seq<E>>>, v: V): map<V, map<V, seq<E>>>
  {
    if v in index then index else index[v := map[]]
  }

  /** The index with the bucket from `s` to `d` set to `b`, or dropped when `b` is empty. */
  function WithBucket<V, E>(index: map<V, map<V, seq<E>>>, s: V, d: V, b: seq<E>): map<V, map<V, seq<E>>>
    requires s in index
  {
    if b == [] then index[s := index[s] - {d}] else index[s := index[s][d := b]]
  }

  /** Setting one bucket changes that bucket, its owner's count and the total by the length difference, and nothing else. */
  lemma WithBucketEffect<V, E>(index: map<V, map<V, seq<E>>>, s: V, d: V, b: seq<E>)
    requires s in index
    ensures WithBucket(index, s, d, b).Keys == index.Keys
    ensures Bucket(WithBucket(index, s, d, b), s, d) == b
    ensures SameBucketsExcept(index, WithBucket(index, s, d, b), s, d)
    ensures Degree(WithBucket(index, s, d, b), s) + |Bucket(index, s, d)| == Degree(index, s) + |b|
    ensures SameDegreesExcept(index, WithBucket(index, s, d, b), s)
    ensures IndexTotal(WithBucket(index, s, d, b)) + |Bucket(index, s, d)| == IndexTotal(index) + |b|
  {
    var r := WithBucket(index, s, d, b);
    if b == [] {
      TotalRemove(index[s], d, Len);
    } else {
      TotalUpdate(index[s], d, b, Len);
    }
    TotalUpdate(index, s, r[s], BucketsTotal);
    assert index[s := r[s]] == r;
  }

  /** Setting one bucket of an inner index replaces that bucket's entries, and changes no other. */
  lemma InnerBag<V, E>(inner: map<V, seq<E>>, d: V, b: seq<E>)
    ensures BucketsBag(if b == [] then inner - {d} else inner[d := b]) + multiset(if d in inner then inner[d] else [])
      == BucketsBag(inner) + multiset(b)
  {
    if b == [] {
      BagRemove(inner, d, Entries);
    } else {
      BagUpdate(inner, d, b, Entries);
    }
  }

  /** Setting one bucket replaces its entries among the index's entries, and changes no other. */
  lemma WithBucketBag<V, E>(index: map<V, map<V, seq<E>>>, s: V, d: V, b: seq<E>)
    requires s in index
    ensures IndexBag(WithBucket(index, s, d, b)) + multiset(Bucket(index, s, d)) == IndexBag(index) + multiset(b)
  {
    var r := WithBucket(index, s, d, b);
    var inner := index[s];
    InnerBag(inner, d, b);
    var was, now := multiset(Bucket(index, s, d)), multiset(b);
    assert BucketsBag(r[s]) + was == BucketsBag(inner) + now;
    BagUpdate(index, s, r[s], BucketsBag);
    assert index[s := r[s]] == r;
    Rebalance(IndexBag(r), IndexBag(index), BucketsBag(inner), BucketsBag(r[s]), was, now);
  }

  /** Two multiset equations sharing a part combine into one without it. */
  lemma Rebalance<E>(l: multiset<E>, r: multiset<E>, i: multiset<E>, j: multiset<E>, w: multiset<E>, n: multiset<E>)
    requires l + i == r + j && j + w == i + n
    ensures l + w == r + n
  {
    forall x ensures (l + w)[x] == (r + n)[x] {
      assert (l + i)[x] == (r + j)[x];
      assert (j + w)[x] == (i + n)[x];
    }
    assert l + w == r + n;
  }

  /** A bucket's old entries cancel from both sides when the bucket grew by `e`. */
  lemma GrewBy<E>(l: multiset<E>, r: multiset<E>, was: seq<E>, e: E)
    requires l + multiset(was) == r + multiset(was + [e])
    ensures l == r + multiset{e}
  {
    assert multiset(was + [e]) == multiset(was) + multiset{e};
    forall x ensures l[x] == (r + multiset{e})[x] {
      assert (l + multiset(was))[x] == (r + multiset(was) + multiset{e})[x];
    }
    assert l == r + multiset{e};
  }

  /** Removing one occurrence of `e` from a bucket removes one edge from the index exactly when `e` was there. */
  lemma RemoveOneCount<V, E>(index: map<V, map<V, seq<E>>>, s: V, d: V, e: E)
    requires s in index && d in index[s]
    ensures IndexTotal(WithBucket(index, s, d, RemoveFirst(index[s][d], e))) + (if e in index[s][d] then 1 else 0)
      == IndexTotal(index)
    ensures Degree(WithBucket(index, s, d, RemoveFirst(index[s][d], e)), s) + (if e in index[s][d] then 1 else 0)
      == Degree(index, s)
  {
    WithBucketEffect(index, s, d, RemoveFirst(index[s][d], e));
  }

  /** The index with `e` appended to the bucket from `s` to `d`. */
  function Appended<V, E>(index: map<V, map<V, seq<E>>>, s: V, d: V, e: E): map<V, map<V, seq<E>>>
    requires s in index
  {
    index[s := index[s][d := Bucket(index, s, d) + [e]]]
  }

  /** Appending is setting the bucket to a non-empty one. */
  lemma AppendedSets<V, E>(index: map<V, map<V, seq<E>>>, s: V, d: V, e: E)
    requires s in index
    ensures Appended(index, s, d, e) == WithBucket(index, s, d, Bucket(index, s, d) + [e])
  {
    assert Bucket(index, s, d) + [e] != [];
  }

  /**
   * The index after registering `a` and `b` and appending `e` to the bucket
   * of owner `s` (one of them) under key `d`.
   */
  function Placed<V, E>(index: map<V, map<V, seq<E>>>, a: V, b: V, s: V, d: V, e: E): map<V, map<V, seq<E>>>
    requires s == a || s == b
  {
    Appended(Registered(Registered(index, a), b), s, d, e)
  }

  /** Registering a vertex changes no bucket. */
  lemma RegisteredBuckets<V, E>(index: map<V, map<V, seq<E>>>, v: V)
    ensures Registered(index, v).Keys == index.Keys + {v}
    ensures forall x | x in index :: Registered(index, v)[x] == index[x]
    ensures forall x, y :: Bucket(Registered(index, v), x, y) == Bucket(index, x, y)
  {
  }

  /** Indices whose buckets all agree stay in agreement outside `s`, `d` after one of them changes there. */
  lemma SameBucketsThrough<V, E>(a: map<V, map<V, seq<E>>>, b: map<V, map<V, seq<E>>>, c: map<V, map<V, seq<E>>>, s: V, d: V)
    requires a.Keys <= b.Keys && b.Keys == c.Keys
    requires forall x | x in a :: b[x] == a[x]
    requires forall x, y :: Bucket(b, x, y) == Bucket(a, x, y)
    requires SameBucketsExcept(b, c, s, d)
    ensures SameBucketsExcept(a, c, s, d)
  {
    forall x, y | x in c && y in c[x] && (x != s || y != d) ensures Bucket(a, x, y) == c[x][y] {
      assert Bucket(b, x, y) == c[x][y];
    }
  }

  /** Registering a vertex adds no entry. */
  lemma RegisteredBag<V, E>(index: map<V, map<V, seq<E>>>, v: V)
    ensures IndexBag(Registered(index, v)) == IndexBag(index)
  {
    if v !in index {
      var r := index[v := map[]];
      BagPick(r, v, BucketsBag);
      assert r - {v} == index;
      assert BucketsBag(r[v]) == multiset{};
    }
  }

  /** Registering a vertex changes no count. */
  lemma RegisteredCounts<V, E>(index: map<V, map<V, seq<E>>>, v: V)
    ensures SameDegreesExcept(index, Registered(index, v), v) && Degree(Registered(index, v), v) == Degree(index, v)
    ensures IndexTotal(Registered(index, v)) == IndexTotal(index)
  {
    if v !in index {
      TotalUpdate(index, v, map[], BucketsTotal);
    }
  }

  /** Placing an edge appends it to its bucket and changes no other bucket. */
  lemma PlacedBuckets<V, E>(index: map<V, map<V, seq<E>>>, a: V, b: V, s: V, d: V, e: E)
    requires s == a || s == b
    ensures Placed(index, a, b, s, d, e).Keys == index.Keys + {a, b}
    ensures Bucket(Placed(index, a, b, s, d, e), s, d) == Bucket(index, s, d) + [e]
    ensures SameBucketsExcept(index, Placed(index, a, b, s, d, e), s, d)
  {
    var r1 := Registered(index, a);
    var r2 := Registered(r1, b);
    RegisteredBuckets(index, a);
    RegisteredBuckets(r1, b);
    AppendedSets(r2, s, d, e);
    WithBucketEffect(r2, s, d, Bucket(r2, s, d) + [e]);
    SameBucketsThrough(index, r2, Placed(index, a, b, s, d, e), s, d);
  }

  /** Placing an edge adds one to its owner's count and to the total, and changes no other count. */
  lemma PlacedCounts<V, E>(index: map<V, map<V, seq<E>>>, a: V, b: V, s: V, d: V, e: E)
    requires s == a || s == b
    ensures Degree(Placed(index, a, b, s, d, e), s) == Degree(index, s) + 1
    ensures SameDegreesExcept(index, Placed(index, a, b, s, d, e), s)
    ensures IndexTotal(Placed(index, a, b, s, d, e)) == IndexTotal(index) + 1
  {
    var r1 := Registered(index, a);
    var r2 := Registered(r1, b);
    RegisteredBuckets(index, a);
    RegisteredBuckets(r1, b);
    RegisteredCounts(index, a);
    RegisteredCounts(r1, b);
    AppendedSets(r2, s, d, e);
    WithBucketEffect(r2, s, d, Bucket(r2, s, d) + [e]);
  }

  /** Placing an edge adds exactly that edge to the index's entries. */
  lemma PlacedBag<V, E>(index: map<V, map<V, seq<E>>>, a: V, b: V, s: V, d: V, e: E)
    requires s == a || s == b
    ensures IndexBag(Placed(index, a, b, s, d, e)) == IndexBag(index) + multiset{e}
  {
    var r1 := Registered(index, a);
    var r2 := Registered(r1, b);
    RegisteredBag(index, a);
    RegisteredBag(r1, b);
    assert s in r2;
    AppendedSets(r2, s, d, e);
    var was := Bucket(r2, s, d);
    WithBucketBag(r2, s, d, was + [e]);
    GrewBy(IndexBag(Placed(index, a, b, s, d, e)), IndexBag(r2), was, e);
  }

  /** Registering both endpoints and appending to both indices keeps them mirrored. */
  lemma PlacedMirrored<V, E>(out: map<V, map<V, seq<E>>>, inc: map<V, map<V, seq<E>>>, s: V, d: V, e: E)
    requires Mirrored(out, inc)
    ensures Mirrored(Placed(out, s, d, s, d, e), Placed(inc, s, d, d, s, e))
  {
    var o1, i1 := Registered(out, s), Registered(inc, s);
    if s !in out {
      TransposeRegister(out, s);
    }
    var o2, i2 := Registered(o1, d), Registered(i1, d);
    if d !in o1 {
      TransposeRegister(o1, d);
    }
    assert Bucket(o2, s, d) == Bucket(i2, d, s);
    TransposeSet(o2, s, d, Bucket(o2, s, d) + [e]);
  }

  /** The index with the entry for `v` dropped from the inner index of every vertex in `us`. */
  function DropFrom<V, E>(index: map<V, map<V, seq<E>>>, v: V, us: set<V>): map<V, map<V, seq<E>>>
  {
    map u | u in index :: if u in us then index[u] - {v} else index[u]
  }

  /**
   * The two loops of `RemoveVertex`: dropping `v` from the incoming index of
   * each child and then from the outgoing index of each remaining parent, and
   * deleting `v` itself, detaches `v` from both indices.
   */
  lemma RemoveVertexEffect<V, E>(out: map<V, map<V, seq<E>>>, inc: map<V, map<V, seq<E>>>, v: V)
    requires Mirrored(out, inc) && v in out
    ensures out[v].Keys <= inc.Keys
    ensures v in DropFrom(inc, v, out[v].Keys)
    ensures DropFrom(inc, v, out[v].Keys)[v].Keys <= out.Keys
    ensures DropFrom(inc, v, out[v].Keys) - {v} == Detach(inc, v)
    ensures DropFrom(out, v, DropFrom(inc, v, out[v].Keys)[v].Keys) - {v} == Detach(out, v)
  {
    var children := out[v].Keys;
    var in1 := DropFrom(inc, v, children);
    var parents := in1[v].Keys;
    forall u | u in inc && u != v && u !in children ensures inc[u] - {v} == inc[u] {
      assert v !in inc[u];
    }
    assert inc[v].Keys - {v} <= parents;
    forall u | u in out && u != v && u !in parents ensures out[u] - {v} == out[u] {
      assert u !in inc[v];
    }
  }

  /** Removes the first occurrence of `e`, as `IList.Remove` does. */
  function RemoveFirst<E(==)>(bucket: seq<E>, e: E): (r: seq<E>)
    ensures e in bucket ==> |r| == |bucket| - 1 && multiset(r) == multiset(bucket) - multiset{e}
    ensures e !in bucket ==> r == bucket
  {
    if bucket == [] then []
    else
      assert bucket == [bucket[0]] + bucket[1..];
      if bucket[0] == e then bucket[1..]
      else [bucket[0]] + RemoveFirst(bucket[1..], e)
  }

  /** The index after removing the vertices of `vs` one after the other. */
  function DetachAll<V, E>(index: map<V, map<V, seq<E>>>, vs: seq<V>): map<V, map<V, seq<E>>>
    decreases |vs|
  {
    if vs == [] then index else DetachAll(Detach(index, vs[0]), vs[1..])
  }

  /** Removing a list of vertices deletes exactly those vertices and keeps every bucket between the others. */
  lemma {:induction false} DetachAllEffect<V, E>(index: map<V, map<V, seq<E>>>, vs: seq<V>)
    ensures DetachAll(index, vs).Keys == index.Keys - set i | 0 <= i < |vs| :: vs[i]
    ensures forall x, y | x in DetachAll(index, vs) && y in DetachAll(index, vs) ::
      Bucket(DetachAll(index, vs), x, y) == Bucket(index, x, y)
    decreases |vs|
  {
    if vs != [] {
      var next := Detach(index, vs[0]);
      DetachBuckets(index, vs[0]);
      DetachAllEffect(next, vs[1..]);
      assert (set i | 0 <= i < |vs| :: vs[i]) == {vs[0]} + (set i | 0 <= i < |vs[1..]| :: vs[1..][i]);
    }
  }

  /** The first loop of `RemoveVertex` (and, with the roles swapped, the second). */
  method DropEach<V, E>(index: map<V, map<V, seq<E>>>, v: V, us: set<V>) returns (r: map<V, map<V, seq<E>>>)
    requires us <= index.Keys
    ensures r == DropFrom(index, v, us)
  {
    r := index;
    var done: set<V> := {};
    while done != us
      invariant done <= us
      invariant r.Keys == index.Keys
      invariant forall u | u in r :: r[u] == if u in done then index[u] - {v} else index[u]
      decreases |us - done|
    {
      var other :| other in us - done;
      r := r[other := r[other] - {v}];
      done := done + {other};
    }
  }

  /** The loop of `RemoveZeroDegreeNodes`: deletes every vertex of `ks` from both indices. */
  method DeleteEach<V, E>(out: map<V, map<V, seq<E>>>, inc: map<V, map<V, seq<E>>>, ks: set<V>)
    returns (o: map<V, map<V, seq<E>>>, i: map<V, map<V, seq<E>>>)
    ensures o == Without(out, ks) && i == Without(inc, ks)
  {
    o, i := out, inc;
    var done: set<V> := {};
    while done != ks
      invariant done <= ks
      invariant o.Keys == out.Keys - done && i.Keys == inc.Keys - done
      invariant forall u | u in o :: o[u] == out[u]
      invariant forall u | u in i :: i[u] == inc[u]
      decreases |ks - done|
    {
      var vertex :| vertex in ks - done;
      o := o - {vertex};
      i := i - {vertex};
      done := done + {vertex};
    }
  }

  class DirectedMultiGraph<V(==), E(==)> {
    var outgoing: map<V, map<V, seq<E>>>
    var incoming: map<V, map<V, seq<E>>>

    /** See `Mirrored`. */
    ghost predicate Valid()
      reads this
    {
      Mirrored(outgoing, incoming)
    }

    constructor ()
      ensures Valid() && outgoing == map[] && incoming == map[]
    {
      outgoing := map[];
      incoming := map[];
    }

    function Vertices(): set<V>
      reads this
    {
      outgoing.Keys
    }

    function NumberOfVertices(): nat
      reads this
    {
      |outgoing|
    }

    function GetEdges(s: V, d: V): seq<E>
      reads this
    {
      Bucket(outgoing, s, d)
    }

    function IsEdge(s: V, d: V): bool
      reads this
    {
      s in outgoing && outgoing[s] != map[] && d in outgoing[s] && outgoing[s][d] != []
    }

    function GetChildren(v: V): set<V>
      reads this
    {
      if v in outgoing then outgoing[v].Keys else {}
    }

    function GetParents(v: V): set<V>
      reads this
    {
      if v in incoming then incoming[v].Keys else {}
    }

    /** The distinct edge objects of the graph (what `new HashSet<TEdge>(Edges)` holds). */
    function Edges(): set<E>
      reads this
    {
      set s, d, e | s in outgoing && d in outgoing[s] && e in outgoing[s][d] :: e
    }

    ghost function InDegree(v: V): nat
      reads this
    {
      Degree(incoming, v)
    }

    ghost function OutDegree(v: V): nat
      reads this
    {
      Degree(outgoing, v)
    }

    ghost function EdgeCount(): nat
      reads this
    {
      IndexTotal(outgoing)
    }

    /** Every entry of every outgoing bucket, counted as often as it was placed. */
    ghost function EdgeBag(): multiset<E>
      reads this
    {
      IndexBag(outgoing)
    }

    /** The placed entries number `EdgeCount()`, and their distinct elements are `Edges()`. */
    lemma EdgeBagIsEdges()
      ensures |EdgeBag()| == EdgeCount()
      ensures forall e :: e in EdgeBag() <==> e in Edges()
    {
      forall e ensures e in EdgeBag() <==> e in Edges() {
        IndexBagMembers(outgoing, e);
      }
      IndexBagSize(outgoing);
    }

    /** The bucket map `GetOutgoingEdges` flattens: it is read from the incoming index. */
    function GetOutgoingEdges(v: V): map<V, seq<E>>
      requires Valid()
      reads this
    {
      if v !in outgoing then map[] else incoming[v]
    }

    /** The bucket map `GetIncomingEdges` flattens. */
    function GetIncomingEdges(v: V): map<V, seq<E>>
      reads this
    {
      if v !in incoming then map[] else incoming[v]
    }

    /** A child of `s` is exactly a vertex that has `s` as a parent, and `IsEdge` is a non-empty bucket. */
    lemma ChildrenMirrorParents(s: V, d: V)
      requires Valid()
      ensures d in GetChildren(s) <==> s in GetParents(d)
      ensures IsEdge(s, d) <==> d in GetChildren(s)
      ensures IsEdge(s, d) <==> GetEdges(s, d) != []
      ensures GetEdges(s, d) == (if s in GetParents(d) then incoming[d][s] else [])
    {
      MirroredPair(outgoing, incoming, s, d);
    }

    /**
     * `GetOutgoingEdges` reads the incoming index: what it flattens are the
     * buckets that END at `v`, one per parent.
     */
    lemma OutgoingEdgesAreIncoming(v: V)
      requires Valid()
      ensures GetOutgoingEdges(v) == GetIncomingEdges(v)
      ensures GetOutgoingEdges(v).Keys == GetParents(v)
      ensures forall p | p in GetOutgoingEdges(v) :: v in GetChildren(p) && GetOutgoingEdges(v)[p] == GetEdges(p, v)
    {
    }

    /**
     * Degrees count parallel edges, children and parents do not: a degree is
     * at least the number of neighbours on that side, and is zero exactly when
     * there are none.
     */
    lemma DegreesAndNeighbours(v: V)
      requires Valid()
      ensures OutDegree(v) == 0 <==> GetChildren(v) == {}
      ensures InDegree(v) == 0 <==> GetParents(v) == {}
      ensures OutDegree(v) >= |GetChildren(v)| && InDegree(v) >= |GetParents(v)|
    {
      if v in outgoing {
        forall k | k in outgoing[v] ensures Len(outgoing[v][k]) > 0 {
        }
        TotalZero(outgoing[v], Len);
        assert |outgoing[v].Keys| == |outgoing[v]|;
      }
      if v in incoming {
        forall k | k in incoming[v] ensures Len(incoming[v][k]) > 0 {
          assert incoming[v][k] == outgoing[k][v];
        }
        TotalZero(incoming[v], Len);
        assert |incoming[v].Keys| == |incoming[v]|;
      }
    }

    /** Registers `v` with empty inner maps when the outgoing index does not know it. */
    method GetOutgoingEdgesMap(v: V) returns (m: map<V, seq<E>>)
      requires outgoing.Keys == incoming.Keys
      modifies this
      ensures v in outgoing && m == outgoing[v]
      ensures outgoing == Registered(old(outgoing), v) && incoming == Registered(old(incoming), v)
    {
      if v in outgoing {
        return outgoing[v];
      }
      m := map[];
      outgoing := outgoing[v := m];
      incoming := incoming[v := map[]];
    }

    /** Registers `v` with empty inner maps when the incoming index does not know it. */
    method GetIncomingEdgesMap(v: V) returns (m: map<V, seq<E>>)
      requires outgoing.Keys == incoming.Keys
      modifies this
      ensures v in incoming && m == incoming[v]
      ensures outgoing == Registered(old(outgoing), v) && incoming == Registered(old(incoming), v)
    {
      if v in incoming {
        return incoming[v];
      }
      m := map[];
      outgoing := outgoing[v := map[]];
      incoming := incoming[v := m];
    }

    /**
     * Appends `e` to the bucket from `s` to `d`, registering unknown endpoints
     * (`PlacedBuckets` and `PlacedCounts` state what that changes).
     */
    method Add(s: V, d: V, e: E)
      requires Valid()
      modifies this
      ensures Valid()
      ensures outgoing == Placed(old(outgoing), s, d, s, d, e)
      ensures incoming == Placed(old(incoming), s, d, d, s, e)
    {
      PlacedMirrored(outgoing, incoming, s, d, e);
      MirroredPair(outgoing, incoming, s, d);
      var outMap := GetOutgoingEdgesMap(s);
      var inMap := GetIncomingEdgesMap(d);
      ghost var o2, i2 := outgoing, incoming;
      assert outMap == o2[s] && inMap == i2[d];
      var outList := if d in outMap then outMap[d] else [];
      var inList := if s in inMap then inMap[s] else [];
      assert outList == Bucket(o2, s, d) && inList == Bucket(i2, d, s);
      outgoing := outgoing[s := outMap[d := outList + [e]]];
      incoming := incoming[d := inMap[s := inList + [e]]];
    }

    /** Installs empty indices for `v`; a vertex already present is left alone. */
    method AddVertex(v: V) returns (added: bool)
      requires Valid()
      modifies this
      ensures Valid()
      ensures added <==> v !in old(Vertices())
      ensures outgoing == Registered(old(outgoing), v) && incoming == Registered(old(incoming), v)
    {
      if v in outgoing {
        return false;
      }
      TransposeRegister(outgoing, v);
      outgoing := outgoing[v := map[]];
      incoming := incoming[v := map[]];
      return true;
    }

    /** Drops the whole bucket from `s` to `d`. */
    method RemoveEdges(s: V, d: V) returns (removed: bool)
      requires Valid()
      modifies this
      ensures Valid()
      ensures removed == old(IsEdge(s, d))
      ensures removed ==> outgoing == WithBucket(old(outgoing), s, d, []) && incoming == WithBucket(old(incoming), d, s, [])
      ensures !removed ==> outgoing == old(outgoing) && incoming == old(incoming)
    {
      if s !in outgoing || d !in incoming || d !in outgoing[s] {
        return false;
      }
      TransposeDrop(outgoing, s, d);
      outgoing := outgoing[s := outgoing[s] - {d}];
      incoming := incoming[d := incoming[d] - {s}];
      return true;
    }

    /**
     * Removes the first occurrence of `e` from the bucket from `s` to `d`, and
     * the bucket itself once it is empty. The C# method throws when the edge is
     * found in only one index; under `Valid()` that cannot happen.
     */
    method RemoveEdge(s: V, d: V, e: E) returns (removed: bool)
      requires Valid()
      modifies this
      ensures Valid()
      ensures removed == (e in Bucket(old(outgoing), s, d))
      ensures s in old(outgoing) && d in old(outgoing)[s] ==>
        outgoing == WithBucket(old(outgoing), s, d, RemoveFirst(old(outgoing)[s][d], e)) &&
        incoming == WithBucket(old(incoming), d, s, RemoveFirst(old(outgoing)[s][d], e))
      ensures !(s in old(outgoing) && d in old(outgoing)[s]) ==> outgoing == old(outgoing) && incoming == old(incoming)
    {
      if s !in outgoing || d !in incoming || d !in outgoing[s] {
        return false;
      }
      var bucket := outgoing[s][d];
      var foundOut := e in bucket;
      var foundIn := e in incoming[d][s];
      if foundOut != foundIn {
        assert false;
      }
      var rest := RemoveFirst(bucket, e);
      if rest == [] {
        TransposeDrop(outgoing, s, d);
        outgoing := outgoing[s := outgoing[s] - {d}];
        incoming := incoming[d := incoming[d] - {s}];
      } else {
        TransposeSet(outgoing, s, d, rest);
        outgoing := outgoing[s := outgoing[s][d := rest]];
        incoming := incoming[d := incoming[d][s := rest]];
      }
      return foundOut;
    }

    /** Deletes `v` and every bucket that starts or ends at it. */
    method RemoveVertex(v: V) returns (removed: bool)
      requires Valid()
      modifies this
      ensures Valid()
      ensures removed <==> v in old(Vertices())
      ensures outgoing == Detach(old(outgoing), v) && incoming == Detach(old(incoming), v)
    {
      TransposeDetach(outgoing, v);
      if v !in outgoing {
        DetachAbsent(outgoing, v);
        DetachAbsent(incoming, v);
        return false;
      }
      RemoveVertexEffect(outgoing, incoming, v);
      incoming := DropEach(incoming, v, outgoing[v].Keys);
      outgoing := DropEach(outgoing, v, incoming[v].Keys);
      outgoing := outgoing - {v};
      incoming := incoming - {v};
      return true;
    }

    /** Removes each listed vertex in turn; reports whether any was present. */
    method RemoveVertices(vs: seq<V>) returns (changed: bool)
      requires Valid()
      modifies this
      ensures Valid()
      ensures changed <==> exists i | 0 <= i < |vs| :: vs[i] in old(outgoing)
      ensures outgoing == DetachAll(old(outgoing), vs) && incoming == DetachAll(old(incoming), vs)
    {
      changed := false;
      ghost var out0, in0 := outgoing, incoming;
      var i := 0;
      while i < |vs|
        invariant 0 <= i <= |vs|
        invariant Valid()
        invariant DetachAll(outgoing, vs[i..]) == DetachAll(out0, vs)
        invariant DetachAll(incoming, vs[i..]) == DetachAll(in0, vs)
        invariant outgoing.Keys <= out0.Keys
        invariant forall x | x in out0 && x !in outgoing :: changed
        invariant changed <==> exists j | 0 <= j < i :: vs[j] in out0
      {
        assert vs[i..][1..] == vs[i + 1..];
        ghost var before := outgoing;
        var r := RemoveVertex(vs[i]);
        DetachBuckets(before, vs[i]);
        if r {
          changed := true;
        }
        i := i + 1;
      }
    }

    /** The vertices with neither outgoing nor incoming buckets. */
    function Isolated(): set<V>
      reads this
    {
      IsolatedIn(outgoing, incoming)
    }

    /** Deleting the isolated vertices leaves none, and keeps every bucket and every other vertex. */
    lemma RemovingIsolatedKeepsEdges()
      requires Valid()
      ensures Without(outgoing, Isolated()).Keys == Vertices() - Isolated()
      ensures forall v | v in Without(outgoing, Isolated()) ::
        Without(outgoing, Isolated())[v] != map[] || Without(incoming, Isolated())[v] != map[]
      ensures forall x, y :: Bucket(Without(outgoing, Isolated()), x, y) == Bucket(outgoing, x, y)
    {
    }

    /** Deletes exactly the vertices with no incident edge; every other entry stays. */
    method RemoveZeroDegreeNodes()
      requires Valid()
      modifies this
      ensures Valid()
      ensures outgoing == Without(old(outgoing), old(Isolated()))
      ensures incoming == Without(old(incoming), old(Isolated()))
    {
      var toDelete := Isolated();
      TransposeWithout(outgoing, toDelete);
      outgoing, incoming := DeleteEach(outgoing, incoming, toDelete);
    }

    /** `GetOutDegree`: the summed bucket lengths of the outgoing index, 0 for an unknown vertex. */
    method GetOutDegree(v: V) returns (n: nat)
      ensures n == OutDegree(v)
    {
      if v !in outgoing {
        return 0;
      }
      n := SumBuckets(outgoing[v]);
    }

    /** `GetInDegree`: the summed bucket lengths of the incoming index, 0 for an unknown vertex. */
    method GetInDegree(v: V) returns (n: nat)
      ensures n == InDegree(v)
    {
      if v !in incoming {
        return 0;
      }
      n := SumBuckets(incoming[v]);
    }

    /** `Edges` as it is enumerated: every bucket entry, so an edge added twice is listed twice. */
    method EdgeList() returns (r: seq<E>)
      ensures multiset(r) == EdgeBag()
      ensures |r| == EdgeCount()
      ensures forall e | e in r :: e in Edges()
    {
      r := [];
      var rest := outgoing;
      while rest != map[]
        invariant multiset(r) + Bag(rest, BucketsBag) == Bag(outgoing, BucketsBag)
        decreases |rest|
      {
        var src :| src in rest;
        BagPick(rest, src, BucketsBag);
        var entries := BucketEntries(rest[src]);
        r := r + entries;
        rest := rest - {src};
      }
      EdgeBagIsEdges();
      forall e | e in r ensures e in Edges() {
        assert e in multiset(r);
      }
    }

    /** `NumberOfEdges`: the summed lengths of all outgoing buckets. */
    method NumberOfEdges() returns (n: nat)
      ensures n == EdgeCount()
    {
      n := 0;
      var rest := outgoing;
      while rest != map[]
        invariant n + Total(rest, BucketsTotal) == Total(outgoing, BucketsTotal)
        decreases |rest|
      {
        var src :| src in rest;
        TotalPick(rest, src, BucketsTotal);
        var k := SumBuckets(rest[src]);
        n := n + k;
        rest := rest - {src};
      }
    }
  }

  /** The entries of one inner index, bucket after bucket. */
  method BucketEntries<V, E>(inner: map<V, seq<E>>) returns (r: seq<E>)
    ensures multiset(r) == BucketsBag(inner)
    ensures |r| == BucketsTotal(inner)
    ensures forall e | e in r :: exists d | d in inner :: e in inner[d]
  {
    r := [];
    var rest := inner;
    while rest != map[]
      invariant multiset(r) + Bag(rest, Entries) == Bag(inner, Entries)
      invariant |r| + Total(rest, Len) == Total(inner, Len)
      invariant rest.Keys <= inner.Keys && forall d | d in rest :: rest[d] == inner[d]
      invariant forall e | e in r :: exists d | d in inner :: e in inner[d]
      decreases |rest|
    {
      var d :| d in rest;
      TotalPick(rest, d, Len);
      BagPick(rest, d, Entries);
      r := r + rest[d];
      rest := rest - {d};
    }
  }

  /** Sums the lengths of the buckets of one inner index. */
  method SumBuckets<V, E>(inner: map<V, seq<E>>) returns (n: nat)
    ensures n == BucketsTotal(inner)
  {
    n := 0;
    var rest := inner;
    while rest != map[]
      invariant n + Total(rest, Len) == Total(inner, Len)
      decreases |rest|
    {
      var k :| k in rest;
      TotalPick(rest, k, Len);
      n := n + |rest[k]|;
      rest := rest - {k};
    }
  }
}
