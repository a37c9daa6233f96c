/**
 * The later path search (VisioParse.ConsoleHost): a depth-first search with
 * an explicit stack and a per-vertex visit budget of `|V| / 2`, the pair
 * loops that run it for every start and end, and the greedy cover that picks,
 * round by round, the first path with the most uncovered edges.
 */
module PathSearch {
  import opened Basics
  import opened Shapes
  import opened MultiGraph
  import opened GraphLinks
  import opened PageGraph
  import opened Candidates
  import opened Ordering
  import opened PathCover

  // ----- the visit budget -----

  /** The count `visitCount` holds for `v`, 0 without an entry. */
  function CountOf(visitCount: map<VertexShape, nat>, v: VertexShape): nat
  {
    if v in visitCount then visitCount[v] else 0
  }

  /** How many more times `v` may be appended under the budget `cap`. */
  function Headroom(visitCount: map<VertexShape, nat>, v: VertexShape, cap: nat): nat
  {
    if CountOf(visitCount, v) < cap then cap - CountOf(visitCount, v) else 0
  }

  /** The appends the budget still allows, summed over the vertices of `order`. */
  ghost function Room(order: seq<VertexShape>, visitCount: map<VertexShape, nat>, cap: nat): nat
    decreases |order|
  {
    if order == [] then 0
    else Room(order[..|order| - 1], visitCount, cap) + Headroom(visitCount, order[|order| - 1], cap)
  }

  lemma {:induction false} RoomElsewhere(order: seq<VertexShape>, visitCount: map<VertexShape, nat>, cap: nat, v: VertexShape, c: nat)
    requires v !in order
    ensures Room(order, visitCount[v := c], cap) == Room(order, visitCount, cap)
    decreases |order|
  {
    if order != [] {
      assert order[|order| - 1] != v;
      RoomElsewhere(order[..|order| - 1], visitCount, cap, v, c);
    }
  }

  /** One more append of a vertex under its budget uses up exactly one unit of room. */
  lemma {:induction false} RoomShrinks(order: seq<VertexShape>, visitCount: map<VertexShape, nat>, cap: nat, v: VertexShape)
    requires NoDuplicates(order) && v in order && CountOf(visitCount, v) < cap
    ensures Room(order, visitCount[v := CountOf(visitCount, v) + 1], cap) + 1 == Room(order, visitCount, cap)
    decreases |order|
  {
    var init := order[..|order| - 1];
    assert NoDuplicates(init);
    if order[|order| - 1] == v {
      assert v !in init;
      RoomElsewhere(init, visitCount, cap, v, CountOf(visitCount, v) + 1);
    } else {
      assert v in init;
      RoomShrinks(init, visitCount, cap, v);
    }
  }

  /** The elements of a finite set, each once, in some order. */
  ghost function ListOf(s: set<VertexShape>): (r: seq<VertexShape>)
    ensures NoDuplicates(r) && (forall x | x in r :: x in s) && (forall x | x in s :: x in r)
    decreases s
  {
    if s == {} then []
    else
      var x :| x in s;
      var rest := ListOf(s - {x});
      assert x !in rest;
      rest + [x]
  }

  /** A set with two different members has at least two. */
  lemma TwoMembers(s: set<VertexShape>, a: VertexShape, b: VertexShape)
    requires a in s && b in s && a != b
    ensures |s| >= 2
  {
    assert s == (s - {a, b}) + {a, b};
  }

  // ----- the stack search -----

  /** Each of `pushes` is `path` extended by a child of its last vertex that is not on it, and no two are the same. */
  predicate Extensions(out: Index, path: Path, pushes: seq<Path>)
    requires path != []
  {
    NoDuplicates(pushes) &&
    forall q | q in pushes ::
      |q| == |path| + 1 && q[..|path|] == path && q[|path|] in Children(out, path[|path| - 1]) && q[|path|] !in path
  }

  /**
   * The state of one search between pops: every path on the stack leaves
   * `start` along children without repeating a vertex; every yielded path is
   * a simple path to `dest`; and each path is pushed at most once, because
   * a pushed path's prefix has been popped, and a popped path never returns.
   */
  ghost predicate SearchState(out: Index, start: VertexShape, dest: VertexShape, stack: seq<Path>, popped: set<Path>, paths: seq<Path>)
  {
    (forall p | p in stack :: p != [] && p[0] == start && Walk(out, p) && NoDuplicates(p)) &&
    (forall p | p in paths :: SimplePath(out, p, start, dest) && p in popped) &&
    NoDuplicates(paths) && NoDuplicates(stack) &&
    (forall p | p in stack :: p !in popped && (|p| >= 2 ==> Parent(p) in popped)) &&
    (forall p {:trigger Parent(p)} | p in popped :: |p| >= 2 ==> Parent(p) in popped)
  }

  /** A path without its last vertex. */
  function Parent(p: Path): Path
  {
    if p == [] then [] else p[..|p| - 1]
  }

  /** The search starts from the one path `[start]`, with nothing popped or yielded. */
  lemma SearchStart(out: Index, start: VertexShape, dest: VertexShape)
    ensures SearchState(out, start, dest, [[start]], {}, [])
  {
    assert Walk(out, [start]);
  }

  /** Popping a path that ends at `dest` and yielding it keeps the search state. */
  lemma PopYield(out: Index, start: VertexShape, dest: VertexShape, stack: seq<Path>, popped: set<Path>, paths: seq<Path>)
    requires SearchState(out, start, dest, stack, popped, paths) && stack != []
    requires stack[|stack| - 1] != [] && stack[|stack| - 1][|stack[|stack| - 1]| - 1] == dest
    ensures SearchState(out, start, dest, stack[..|stack| - 1], popped + {stack[|stack| - 1]}, paths + [stack[|stack| - 1]])
  {
    var path := stack[|stack| - 1];
    assert path in stack;
    var rest := stack[..|stack| - 1];
    assert forall p | p in rest :: p in stack && p != path;
    assert path !in paths;
  }

  /** Each extension of a popped simple walk is a simple walk one longer, whose parent is the popped path. */
  lemma ExtensionsExtend(out: Index, start: VertexShape, path: Path, popped: set<Path>, pushes: seq<Path>)
    requires path != [] && path[0] == start && Walk(out, path) && NoDuplicates(path) && path !in popped
    requires Extensions(out, path, pushes)
    requires forall p {:trigger Parent(p)} | p in popped :: |p| >= 2 ==> Parent(p) in popped
    ensures forall q | q in pushes :: q != [] && q[0] == start && Walk(out, q) && NoDuplicates(q) && |q| >= 2
    ensures forall q | q in pushes :: Parent(q) == path && q !in popped + {path}
  {
    forall q | q in pushes
      ensures q != [] && q[0] == start && Walk(out, q) && NoDuplicates(q) && |q| >= 2
      ensures Parent(q) == path && q !in popped + {path}
    {
      assert q == path + [q[|path|]];
      assert Parent(q) == path;
    }
  }

  /** Popping a path and pushing extensions of it keeps the search state. */
  lemma PopExpand(out: Index, start: VertexShape, dest: VertexShape, stack: seq<Path>, popped: set<Path>, paths: seq<Path>,
                  pushes: seq<Path>)
    requires SearchState(out, start, dest, stack, popped, paths) && stack != []
    requires stack[|stack| - 1] != [] && Extensions(out, stack[|stack| - 1], pushes)
    ensures SearchState(out, start, dest, stack[..|stack| - 1] + pushes, popped + {stack[|stack| - 1]}, paths)
  {
    var path := stack[|stack| - 1];
    assert path in stack;
    var rest := stack[..|stack| - 1];
    assert forall p | p in rest :: p in stack && p != path;
    ExtensionsExtend(out, start, path, popped, pushes);
    assert forall p | p in rest :: p !in pushes;
    NoDuplicatesConcat(rest, pushes);
    assert forall p | p in rest + pushes :: p in rest || p in pushes;
  }

  /**
   * One counted append: the count of `n` goes up by one (from an absent
   * entry to 1), and `n` joins the visited vertices on its first count.
   */
  method CountAppend(g: Graph, n: VertexShape, cap: nat, visitCount: map<VertexShape, nat>, visited: set<VertexShape>,
                     ghost order: seq<VertexShape>)
    returns (counts: map<VertexShape, nat>, seen: set<VertexShape>)
    requires n in g.Vertices() && CountOf(visitCount, n) < cap
    requires NoDuplicates(order) && (forall v | v in g.Vertices() :: v in order)
    requires forall v | v in visitCount :: v in g.Vertices() && 1 <= visitCount[v] <= cap
    ensures counts == visitCount[n := CountOf(visitCount, n) + 1]
    ensures seen == if n in visitCount then visited else visited + {n}
    ensures counts.Keys == visitCount.Keys + {n}
    ensures Room(order, counts, cap) + 1 == Room(order, visitCount, cap)
    ensures forall v | v in counts :: v in g.Vertices() && 1 <= counts[v] <= cap
  {
    RoomShrinks(order, visitCount, cap, n);
    seen := visited;
    if n in visitCount {
      counts := visitCount[n := visitCount[n] + 1];
    } else {
      counts := visitCount[n := 1];
      if n !in visited {
        seen := visited + {n};
      }
    }
  }

  /** One counted append keeps the visited set equal to the earlier visits and the counted vertices. */
  lemma CountedSeen(visited: set<VertexShape>, keys: set<VertexShape>, seen: set<VertexShape>,
                    counted: set<VertexShape>, next: set<VertexShape>, n: VertexShape)
    requires seen == visited + keys && counted == keys + {n}
    requires next == if n in keys then seen else seen + {n}
    ensures keys <= counted && next == visited + counted
  {
  }

  /** `path` extended by each of `ns` in turn. */
  function Appended(path: Path, ns: seq<VertexShape>): (r: seq<Path>)
    ensures |r| == |ns| && forall i | 0 <= i < |ns| :: r[i] == path + [ns[i]]
  {
    seq(|ns|, i requires 0 <= i < |ns| => path + [ns[i]])
  }

  lemma AppendedSnoc(path: Path, ns: seq<VertexShape>, n: VertexShape)
    ensures Appended(path, ns + [n]) == Appended(path, ns) + [path + [n]]
  {
  }

  /** Extending by distinct children that are not on the path gives extensions. */
  lemma AppendedExtends(out: Index, path: Path, ns: seq<VertexShape>)
    requires path != [] && NoDuplicates(ns)
    requires forall n | n in ns :: n in Children(out, path[|path| - 1]) && n !in path
    ensures Extensions(out, path, Appended(path, ns))
  {
    var r := Appended(path, ns);
    forall q | q in r
      ensures |q| == |path| + 1 && q[..|path|] == path && q[|path|] in Children(out, path[|path| - 1]) && q[|path|] !in path
    {
      var i :| 0 <= i < |r| && r[i] == q;
      assert q == path + [ns[i]] && ns[i] in ns;
      assert q[..|path|] == path;
    }
    forall i, j | 0 <= i < j < |r| ensures r[i] != r[j] {
      assert r[i][|path|] == ns[i] && r[j][|path|] == ns[j];
    }
  }

  /** Whether the inner `foreach` appends `n` to `path`: it is not on the path and has no count yet or a count below `cap`. */
  predicate Appendable(n: VertexShape, path: Path, visitCount: map<VertexShape, nat>, cap: nat)
  {
    n !in path && (n !in visitCount || visitCount[n] < cap)
  }

  /** The neighbours the inner `foreach` appends, in the order it meets them. */
  function Eligible(ns: seq<VertexShape>, path: Path, visitCount: map<VertexShape, nat>, cap: nat): (r: seq<VertexShape>)
    ensures forall n | n in r :: n in ns && Appendable(n, path, visitCount, cap)
    ensures forall n | n in ns && Appendable(n, path, visitCount, cap) :: n in r
    ensures NoDuplicates(ns) ==> NoDuplicates(r)
    decreases |ns|
  {
    if ns == [] then []
    else
      var init := Eligible(ns[..|ns| - 1], path, visitCount, cap);
      var n := ns[|ns| - 1];
      assert ns == ns[..|ns| - 1] + [n];
      if Appendable(n, path, visitCount, cap) then init + [n] else init
  }

  /** Filtering keeps the order: the appended neighbours of a list sorted by a key are sorted by it. */
  lemma {:induction false} EligibleSorted(ns: seq<VertexShape>, path: Path, visitCount: map<VertexShape, nat>, cap: nat,
                                          key: VertexShape -> int)
    requires SortedBy(ns, key)
    ensures SortedBy(Eligible(ns, path, visitCount, cap), key)
    decreases |ns|
  {
    if ns != [] {
      var init, n := ns[..|ns| - 1], ns[|ns| - 1];
      assert SortedBy(init, key);
      EligibleSorted(init, path, visitCount, cap, key);
      var r := Eligible(init, path, visitCount, cap);
      forall x | x in r ensures key(x) <= key(n) {
        var i :| 0 <= i < |init| && init[i] == x;
        assert ns[i] == x && ns[|ns| - 1] == n;
      }
      if Appendable(n, path, visitCount, cap) {
        forall i, j | 0 <= i < j < |r + [n]| ensures key((r + [n])[i]) <= key((r + [n])[j]) {
          if j == |r| {
            assert (r + [n])[i] == r[i] && r[i] in r;
          }
        }
      }
    }
  }

  /** The visit counts after appending each of `ns` once: each goes up by one, starting from an absent entry as 0. */
  function Bumped(visitCount: map<VertexShape, nat>, ns: seq<VertexShape>): map<VertexShape, nat>
    decreases |ns|
  {
    if ns == [] then visitCount
    else
      var m := Bumped(visitCount, ns[..|ns| - 1]);
      m[ns[|ns| - 1] := CountOf(m, ns[|ns| - 1]) + 1]
  }

  lemma BumpedSnoc(visitCount: map<VertexShape, nat>, ns: seq<VertexShape>, n: VertexShape, counts: map<VertexShape, nat>)
    requires counts == Bumped(visitCount, ns)
    ensures Bumped(visitCount, ns + [n]) == counts[n := CountOf(counts, n) + 1]
  {
    assert (ns + [n])[..|ns|] == ns;
  }

  lemma EligibleSnoc(ns: seq<VertexShape>, k: nat, path: Path, visitCount: map<VertexShape, nat>, cap: nat)
    requires k < |ns|
    ensures Eligible(ns[..k + 1], path, visitCount, cap) ==
            Eligible(ns[..k], path, visitCount, cap) + if Appendable(ns[k], path, visitCount, cap) then [ns[k]] else []
  {
    assert ns[..k + 1][..k] == ns[..k];
  }

  /** Appending distinct neighbours raises the count of each by exactly one and leaves the others as they were. */
  lemma {:induction false} BumpedCounts(visitCount: map<VertexShape, nat>, ns: seq<VertexShape>, x: VertexShape)
    requires NoDuplicates(ns)
    ensures CountOf(Bumped(visitCount, ns), x) == CountOf(visitCount, x) + (if x in ns then 1 else 0)
    decreases |ns|
  {
    if ns != [] {
      var init, n := ns[..|ns| - 1], ns[|ns| - 1];
      assert ns == init + [n];
      assert NoDuplicates(init) by {
        forall i, j | 0 <= i < j < |init| ensures init[i] != init[j] { assert ns[i] == init[i] && ns[j] == init[j]; }
      }
      BumpedCounts(visitCount, init, x);
      if x == n {
        assert n !in init by {
          forall i | 0 <= i < |init| ensures init[i] != n { assert ns[i] == init[i]; }
        }
        BumpedCounts(visitCount, init, n);
      }
    }
  }

  /** What the inner `foreach` has done after its first `k` neighbours: appended exactly `ns`, and counted them. */
  ghost predicate PushState(g: Graph, path: Path, neighbors: seq<VertexShape>, cap: nat, visitCount: map<VertexShape, nat>,
                            visited: set<VertexShape>, order: seq<VertexShape>, k: nat, ns: seq<VertexShape>,
                            counts: map<VertexShape, nat>, seen: set<VertexShape>)
    reads g
  {
    k <= |neighbors| && NoDuplicates(ns) &&
    ns == Eligible(neighbors[..k], path, visitCount, cap) && counts == Bumped(visitCount, ns) &&
    (forall n | n in ns :: n in neighbors && n !in path) &&
    (forall j | k <= j < |neighbors| :: neighbors[j] !in ns) &&
    Room(order, counts, cap) + |ns| == Room(order, visitCount, cap) &&
    (forall v | v in counts :: v in g.Vertices() && 1 <= counts[v] <= cap) &&
    visitCount.Keys <= counts.Keys && seen == visited + counts.Keys &&
    (forall v | v in counts && v !in visitCount :: v !in path)
  }

  /** A neighbour that is not appendable leaves the state as it was. */
  lemma PushSkip(g: Graph, path: Path, neighbors: seq<VertexShape>, cap: nat, visitCount: map<VertexShape, nat>,
                 visited: set<VertexShape>, order: seq<VertexShape>, k: nat, ns: seq<VertexShape>,
                 counts: map<VertexShape, nat>, seen: set<VertexShape>)
    requires k < |neighbors| && PushState(g, path, neighbors, cap, visitCount, visited, order, k, ns, counts, seen)
    requires !Appendable(neighbors[k], path, visitCount, cap)
    ensures PushState(g, path, neighbors, cap, visitCount, visited, order, k + 1, ns, counts, seen)
  {
    EligibleSnoc(neighbors, k, path, visitCount, cap);
  }

  /** An appendable neighbour joins `ns`, counted once more. */
  lemma PushAppend(g: Graph, path: Path, neighbors: seq<VertexShape>, cap: nat, visitCount: map<VertexShape, nat>,
                   visited: set<VertexShape>, order: seq<VertexShape>, k: nat, ns: seq<VertexShape>,
                   counts: map<VertexShape, nat>, seen: set<VertexShape>,
                   n: VertexShape, nextCounts: map<VertexShape, nat>, nextSeen: set<VertexShape>)
    requires NoDuplicates(neighbors)
    requires k < |neighbors| && n == neighbors[k]
    requires PushState(g, path, neighbors, cap, visitCount, visited, order, k, ns, counts, seen)
    requires Appendable(n, path, visitCount, cap)
    requires nextCounts == counts[n := CountOf(counts, n) + 1]
    requires nextSeen == if n in counts then seen else seen + {n}
    requires Room(order, nextCounts, cap) + 1 == Room(order, counts, cap)
    requires forall v | v in nextCounts :: v in g.Vertices() && 1 <= nextCounts[v] <= cap
    ensures PushState(g, path, neighbors, cap, visitCount, visited, order, k + 1, ns + [n], nextCounts, nextSeen)
  {
    EligibleSnoc(neighbors, k, path, visitCount, cap);
    BumpedSnoc(visitCount, ns, n, counts);
    assert n !in ns;
    forall j | k + 1 <= j < |neighbors| ensures neighbors[j] !in ns + [n] {
      assert neighbors[j] != neighbors[k];
    }
    CountedSeen(visited, counts.Keys, seen, nextCounts.Keys, nextSeen, n);
  }

  /** The source's test on the `k`-th neighbour, read against the counts so far, is `Appendable` against the counts before the loop. */
  lemma PushTest(g: Graph, path: Path, neighbors: seq<VertexShape>, cap: nat,
                 visitCount: map<VertexShape, nat>, visited: set<VertexShape>, order: seq<VertexShape>,
                 k: nat, counts: map<VertexShape, nat>, seen: set<VertexShape>, ns: seq<VertexShape>)
    requires Closed(g.outgoing) && path != [] && cap == |g.Vertices()| / 2
    requires forall n | n in neighbors :: n in Children(g.outgoing, path[|path| - 1])
    requires k < |neighbors| && PushState(g, path, neighbors, cap, visitCount, visited, order, k, ns, counts, seen)
    ensures (neighbors[k] !in path && (neighbors[k] !in counts || counts[neighbors[k]] < cap)) ==
            Appendable(neighbors[k], path, visitCount, cap)
    ensures Appendable(neighbors[k], path, visitCount, cap) ==> neighbors[k] in g.Vertices() && CountOf(counts, neighbors[k]) < cap
    ensures forall v | v in counts :: v in g.Vertices() && 1 <= counts[v] <= cap
  {
    var n := neighbors[k];
    assert n in neighbors && n !in ns;
    BumpedCounts(visitCount, ns, n);
    if Appendable(n, path, visitCount, cap) {
      var current := path[|path| - 1];
      assert g.outgoing[current][n] != [];
      TwoMembers(g.Vertices(), current, n);
    }
  }

  /** One turn of the inner `foreach`: the `k`-th neighbour is appended and counted exactly when it is appendable. */
  method PushOne(g: Graph, path: Path, neighbors: seq<VertexShape>, cap: nat,
                 visitCount: map<VertexShape, nat>, visited: set<VertexShape>, ghost order: seq<VertexShape>,
                 k: nat, counts: map<VertexShape, nat>, seen: set<VertexShape>, ghost ns: seq<VertexShape>)
    returns (nextCounts: map<VertexShape, nat>, nextSeen: set<VertexShape>, pushed: bool, ghost nextNs: seq<VertexShape>)
    requires Closed(g.outgoing) && path != [] && cap == |g.Vertices()| / 2
    requires NoDuplicates(order) && (forall v | v in g.Vertices() :: v in order)
    requires NoDuplicates(neighbors) && forall n | n in neighbors :: n in Children(g.outgoing, path[|path| - 1])
    requires k < |neighbors| && PushState(g, path, neighbors, cap, visitCount, visited, order, k, ns, counts, seen)
    ensures PushState(g, path, neighbors, cap, visitCount, visited, order, k + 1, nextNs, nextCounts, nextSeen)
    ensures nextNs == if pushed then ns + [neighbors[k]] else ns
  {
    var n := neighbors[k];
    PushTest(g, path, neighbors, cap, visitCount, visited, order, k, counts, seen, ns);
    if n !in path && (n !in counts || counts[n] < cap) {
      nextCounts, nextSeen := CountAppend(g, n, cap, counts, seen, order);
      PushAppend(g, path, neighbors, cap, visitCount, visited, order, k, ns, counts, seen, n, nextCounts, nextSeen);
      pushed, nextNs := true, ns + [n];
    } else {
      PushSkip(g, path, neighbors, cap, visitCount, visited, order, k, ns, counts, seen);
      nextCounts, nextSeen, pushed, nextNs := counts, seen, false, ns;
    }
  }

  /**
   * The inner `foreach` of one expansion: walks the ordered neighbours of the
   * last vertex of `path` and, for each that is not on the path and still has
   * budget, counts the append and pushes the extended path. `pushes` are the
   * paths pushed, in push order.
   */
  method PushNeighbors(g: Graph, path: Path, neighbors: seq<VertexShape>, cap: nat,
                       visitCount: map<VertexShape, nat>, visited: set<VertexShape>, ghost order: seq<VertexShape>)
    returns (pushes: seq<Path>, counts: map<VertexShape, nat>, seen: set<VertexShape>)
    requires Closed(g.outgoing) && path != [] && cap == |g.Vertices()| / 2
    requires NoDuplicates(order) && (forall v | v in g.Vertices() :: v in order)
    requires NoDuplicates(neighbors) && forall n | n in neighbors :: n in Children(g.outgoing, path[|path| - 1])
    requires forall v | v in visitCount :: v in g.Vertices() && 1 <= visitCount[v] <= cap
    requires visitCount.Keys <= visited
    ensures pushes == Appended(path, Eligible(neighbors, path, visitCount, cap))
    ensures counts == Bumped(visitCount, Eligible(neighbors, path, visitCount, cap))
    ensures Extensions(g.outgoing, path, pushes)
    ensures Room(order, counts, cap) + |pushes| == Room(order, visitCount, cap)
    ensures forall v | v in counts :: v in g.Vertices() && 1 <= counts[v] <= cap
    ensures visitCount.Keys <= counts.Keys && seen == visited + counts.Keys
    ensures forall v | v in counts && v !in visitCount :: v !in path
  {
    pushes, counts, seen := [], visitCount, visited;
    ghost var ns: seq<VertexShape> := [];
    assert neighbors[..0] == [];
    for k := 0 to |neighbors|
      invariant pushes == Appended(path, ns)
      invariant PushState(g, path, neighbors, cap, visitCount, visited, order, k, ns, counts, seen)
    {
      var pushed;
      ghost var ns0 := ns;
      counts, seen, pushed, ns := PushOne(g, path, neighbors, cap, visitCount, visited, order, k, counts, seen, ns);
      if pushed {
        AppendedSnoc(path, ns0, neighbors[k]);
        pushes := pushes + [path + [neighbors[k]]];
      }
    }
    assert neighbors[..|neighbors|] == neighbors;
    AppendedExtends(g.outgoing, path, ns);
  }

  /** The key the neighbours are ordered by: their visit count so far. */
  function VisitKey(visitCount: map<VertexShape, nat>): VertexShape -> int
  {
    (n: VertexShape) => CountOf(visitCount, n) as int
  }

  /** The children of `v`, listed in some order and then stably sorted by ascending visit count. */
  method OrderedChildren(g: Graph, v: VertexShape, visitCount: map<VertexShape, nat>) returns (neighbors: seq<VertexShape>)
    ensures NoDuplicates(neighbors) && forall n | n in neighbors :: n in Children(g.outgoing, v)
    ensures forall n | n in Children(g.outgoing, v) :: n in neighbors
    ensures SortedBy(neighbors, VisitKey(visitCount))
  {
    var children := Enumerate(g.GetChildren(v));
    neighbors := OrderBy(children, VisitKey(visitCount));
    OrderByIsStableSort(children, VisitKey(visitCount));
    MultisetNoDuplicates(children, neighbors);
    forall n | n in Children(g.outgoing, v) ensures n in neighbors {
      assert n in (set x | x in children);
      assert n in multiset(children);
    }
    forall n | n in neighbors ensures n in Children(g.outgoing, v) {
      assert n in multiset(neighbors);
      assert n in (set x | x in children);
    }
  }

  /**
   * One turn of the `while` loop: pops the top path, then yields it when it
   * ends at `dest` and otherwise pushes its eligible extensions. Either the
   * budget shrinks (something was pushed) or the stack does.
   */
  method SearchStep(g: Graph, start: VertexShape, dest: VertexShape, cap: nat, stack: seq<Path>, paths: seq<Path>,
                    visitCount: map<VertexShape, nat>, visited: set<VertexShape>,
                    ghost popped: set<Path>, ghost order: seq<VertexShape>)
    returns (nextStack: seq<Path>, nextPaths: seq<Path>, counts: map<VertexShape, nat>, seen: set<VertexShape>,
             neighbors: seq<VertexShape>, ghost nextPopped: set<Path>)
    requires Closed(g.outgoing) && cap == |g.Vertices()| / 2
    requires NoDuplicates(order) && (forall v | v in g.Vertices() :: v in order)
    requires stack != [] && SearchState(g.outgoing, start, dest, stack, popped, paths)
    requires start !in visitCount && forall v | v in visitCount :: v in g.Vertices() && 1 <= visitCount[v] <= cap
    requires visitCount.Keys <= visited
    ensures stack[|stack| - 1] != []
    ensures var path := stack[|stack| - 1];
            path[|path| - 1] == dest ==>
              nextStack == stack[..|stack| - 1] && nextPaths == paths + [path] &&
              counts == visitCount && seen == visited && neighbors == []
    ensures var path := stack[|stack| - 1];
            path[|path| - 1] != dest ==>
              nextPaths == paths &&
              NoDuplicates(neighbors) && (forall n | n in neighbors :: n in Children(g.outgoing, path[|path| - 1])) &&
              (forall n | n in Children(g.outgoing, path[|path| - 1]) :: n in neighbors) &&
              SortedBy(neighbors, VisitKey(visitCount)) &&
              SortedBy(Eligible(neighbors, path, visitCount, cap), VisitKey(visitCount)) &&
              nextStack == stack[..|stack| - 1] + Appended(path, Eligible(neighbors, path, visitCount, cap)) &&
              counts == Bumped(visitCount, Eligible(neighbors, path, visitCount, cap))
    ensures SearchState(g.outgoing, start, dest, nextStack, nextPopped, nextPaths)
    ensures start !in counts && forall v | v in counts :: v in g.Vertices() && 1 <= counts[v] <= cap
    ensures visitCount.Keys <= counts.Keys && seen == visited + counts.Keys
    ensures Room(order, counts, cap) < Room(order, visitCount, cap) ||
            (Room(order, counts, cap) == Room(order, visitCount, cap) && |nextStack| < |stack|)
  {
    var path := stack[|stack| - 1];
    assert path in stack;
    var current := path[|path| - 1];
    if current == dest {
      PopYield(g.outgoing, start, dest, stack, popped, paths);
      nextStack, nextPaths, counts, seen, nextPopped := stack[..|stack| - 1], paths + [path], visitCount, visited, popped + {path};
      neighbors := [];
    } else {
      neighbors := OrderedChildren(g, current, visitCount);
      var pushes;
      assert path[0] == start;
      pushes, counts, seen := PushNeighbors(g, path, neighbors, cap, visitCount, visited, order);
      EligibleSorted(neighbors, path, visitCount, cap, VisitKey(visitCount));
      PopExpand(g.outgoing, start, dest, stack, popped, paths, pushes);
      nextStack, nextPaths, nextPopped := stack[..|stack| - 1] + pushes, paths, popped + {path};
    }
  }

  /**
   * `FindPermutations` with its local `DFS`: pops a path, yields it when it
   * ends at `dest`, and otherwise pushes its extensions by the children of
   * its last vertex, ordered by ascending visit count (a stable `OrderBy`).
   * A child is appended only when it is not on the path and its count is
   * below `|V| / 2`; every append counts. `visitCount` starts empty for each
   * call, and `visitedNodes`, shared by the whole run, gains every vertex
   * counted here.
   */
  method FindPermutations(g: Graph, start: VertexShape, dest: VertexShape, visitedNodes: set<VertexShape>)
    returns (paths: seq<Path>, visited: set<VertexShape>, visitCount: map<VertexShape, nat>)
    requires Closed(g.outgoing)
    ensures forall p | p in paths :: SimplePath(g.outgoing, p, start, dest)
    ensures NoDuplicates(paths)
    ensures start !in visitCount
    ensures forall v | v in visitCount :: v in g.Vertices() && 1 <= visitCount[v] <= |g.Vertices()| / 2
    ensures visited == visitedNodes + visitCount.Keys
  {
    var cap := |g.Vertices()| / 2;
    visitCount, visited, paths := map[], visitedNodes, [];
    var stack: seq<Path> := [[start]];
    ghost var popped: set<Path> := {};
    ghost var order := ListOf(g.Vertices());
    SearchStart(g.outgoing, start, dest);
    while stack != []
      invariant SearchState(g.outgoing, start, dest, stack, popped, paths)
      invariant start !in visitCount
      invariant forall v | v in visitCount :: v in g.Vertices() && 1 <= visitCount[v] <= cap
      invariant visitCount.Keys <= visited && visited == visitedNodes + visitCount.Keys
      decreases Room(order, visitCount, cap), |stack|
    {
      ghost var keys := visitCount.Keys;
      var neighbors;
      stack, paths, visitCount, visited, neighbors, popped := SearchStep(g, start, dest, cap, stack, paths, visitCount, visited, popped, order);
      VisitedGrows(visitedNodes, keys, visitCount.Keys, visited);
    }
  }

  /** Counting more vertices adds them to the visited set and keeps the rest. */
  lemma VisitedGrows(visitedNodes: set<VertexShape>, keys: set<VertexShape>, counted: set<VertexShape>,
                     seen: set<VertexShape>)
    requires keys <= counted && seen == visitedNodes + keys + counted
    ensures counted <= seen && seen == visitedNodes + counted
  {
  }

  // ----- every start with every end -----

  /**
   * The inner loop of `GetAllPermutations` for one start: the search towards
   * each end in turn, appending the paths found; `row[j]` holds those ending
   * at `ends[j]`.
   */
  method PathsFromStart(g: Graph, start: VertexShape, ends: seq<VertexShape>, visitedNodes: set<VertexShape>)
    returns (found: seq<Path>, visited: set<VertexShape>, ghost row: seq<seq<Path>>)
    requires Closed(g.outgoing) && visitedNodes <= g.Vertices()
    ensures |row| == |ends| && found == Concat(row)
    ensures forall j, p | 0 <= j < |ends| && p in row[j] :: SimplePath(g.outgoing, p, start, ends[j])
    ensures forall j | 0 <= j < |ends| :: NoDuplicates(row[j])
    ensures visited <= g.Vertices()
  {
    found, visited, row := [], visitedNodes, [];
    for j := 0 to |ends|
      invariant |row| == j && found == Concat(row)
      invariant forall b, p | 0 <= b < j && p in row[b] :: SimplePath(g.outgoing, p, start, ends[b])
      invariant forall b | 0 <= b < j :: NoDuplicates(row[b])
      invariant visited <= g.Vertices()
    {
      var paths, visitCount;
      paths, visited, visitCount := FindPermutations(g, start, ends[j], visited);
      ConcatSnoc(row, paths);
      found, row := found + paths, row + [paths];
    }
  }

  /**
   * `GetAllPermutations`: selects the starts and ends over one enumeration
   * `order` of the vertices, then runs the search for every start and, inside,
   * every end, appending each pair's paths. `blocks[i][j]` holds the paths
   * found from `starts[i]` to `ends[j]`.
   */
  method GetAllPermutations(g: Graph, nodeOption: string, startContent: Option<string>, endContent: Option<string>)
    returns (allPaths: seq<Path>, order: seq<VertexShape>, starts: seq<VertexShape>, ends: seq<VertexShape>,
             visitedNodes: set<VertexShape>, ghost blocks: seq<seq<seq<Path>>>)
    requires g.Valid() && |nodeOption| >= 1
    ensures NoDuplicates(order) && (set v | v in order) == g.Vertices()
    ensures (starts, ends) == GetSpecifiedNodes(order, nodeOption, startContent, endContent, Sources(g.outgoing), Sources(g.incoming))
    ensures |blocks| == |starts| && forall i | 0 <= i < |starts| :: |blocks[i]| == |ends|
    ensures allPaths == Flatten(blocks)
    ensures forall i, j, p | 0 <= i < |starts| && 0 <= j < |ends| && p in blocks[i][j] :: SimplePath(g.outgoing, p, starts[i], ends[j])
    ensures forall i, j | 0 <= i < |starts| && 0 <= j < |ends| :: NoDuplicates(blocks[i][j])
    ensures visitedNodes <= g.Vertices()
  {
    order := Enumerate(g.Vertices());
    starts := FilterCandidates(g, order, SelectionMark(nodeOption[0], startContent), true);
    ends := FilterCandidates(g, order, SelectionMark(nodeOption[0], endContent), false);
    allPaths, visitedNodes, blocks := [], {}, [];
    for i := 0 to |starts|
      invariant |blocks| == i && forall a | 0 <= a < i :: |blocks[a]| == |ends|
      invariant allPaths == Flatten(blocks)
      invariant forall a, b, p | 0 <= a < i && 0 <= b < |ends| && p in blocks[a][b] :: SimplePath(g.outgoing, p, starts[a], ends[b])
      invariant forall a, b | 0 <= a < i && 0 <= b < |ends| :: NoDuplicates(blocks[a][b])
      invariant visitedNodes <= g.Vertices()
    {
      var found;
      ghost var row;
      found, visitedNodes, row := PathsFromStart(g, starts[i], ends, visitedNodes);
      FlattenSnoc(blocks, row);
      allPaths, blocks := allPaths + found, blocks + [row];
    }
  }

  // ----- the greedy cover -----

  /** Each path paired with its uncovered count: the `Select` the sort runs on. */
  function Scored(out: Index, paths: seq<Path>, unique: set<EdgeShape>, covered: set<EdgeShape>): (r: seq<(nat, Path)>)
    ensures |r| == |paths| && forall i | 0 <= i < |paths| :: r[i] == (CountUncoveredEdges(out, paths[i], unique, covered), paths[i])
  {
    seq(|paths|, i requires 0 <= i < |paths| => (CountUncoveredEdges(out, paths[i], unique, covered), paths[i]))
  }

  /** The sort key of `OrderByDescending(p => p.uncovered)`, as an ascending key. */
  function Descending(x: (nat, Path)): int
  {
    -(x.0 as int)
  }

  /** The largest count of a non-empty scored list (`Max`). */
  function MaxCount(s: seq<(nat, Path)>): (m: nat)
    requires s != []
    ensures forall x | x in s :: x.0 <= m
    ensures exists x | x in s :: x.0 == m
    decreases |s|
  {
    if |s| == 1 then s[0].0
    else
      var m := MaxCount(s[1..]);
      assert forall x | x in s[1..] :: x in s;
      if s[0].0 >= m then s[0].0 else m
  }

  /** The position of the path a round picks: the first of those with the most uncovered edges. */
  function BestIndex(out: Index, paths: seq<Path>, unique: set<EdgeShape>, covered: set<EdgeShape>): (i: nat)
    requires paths != []
    ensures i < |paths|
    ensures forall j | 0 <= j < |paths| :: CountUncoveredEdges(out, paths[j], unique, covered) <= CountUncoveredEdges(out, paths[i], unique, covered)
    ensures forall j | 0 <= j < i :: CountUncoveredEdges(out, paths[j], unique, covered) < CountUncoveredEdges(out, paths[i], unique, covered)
  {
    var scored := Scored(out, paths, unique, covered);
    var i := FirstMinIndex(scored, Descending);
    assert forall j | 0 <= j < |paths| :: Descending(scored[i]) <= Descending(scored[j]);
    i
  }

  /**
   * The first element of the stable descending sort is the first path with
   * the most uncovered edges, and its count is the maximum.
   */
  lemma OrderedFirstIsBest(out: Index, paths: seq<Path>, unique: set<EdgeShape>, covered: set<EdgeShape>)
    requires paths != []
    ensures var ordered := OrderBy(Scored(out, paths, unique, covered), Descending);
      var best := BestIndex(out, paths, unique, covered);
      ordered != [] && ordered[0] == (CountUncoveredEdges(out, paths[best], unique, covered), paths[best]) &&
      MaxCount(ordered) == CountUncoveredEdges(out, paths[best], unique, covered)
  {
    var scored := Scored(out, paths, unique, covered);
    var ordered := OrderBy(scored, Descending);
    var best := BestIndex(out, paths, unique, covered);
    OrderByFirst(scored, Descending);
    OrderByIsStableSort(scored, Descending);
    var m := MaxCount(ordered);
    var x :| x in ordered && x.0 == m;
    assert x in multiset(scored);
    var j :| 0 <= j < |scored| && scored[j] == x;
    assert ordered[0] in ordered;
  }

  /**
   * One greedy choice: after the paths `prefix` were chosen, `p` is the first
   * path of `paths` with the most uncovered edges, and it has at least one.
   */
  ghost predicate PickedAfter(out: Index, paths: seq<Path>, unique: set<EdgeShape>, prefix: seq<Path>, p: Path)
  {
    paths != [] && p == paths[BestIndex(out, paths, unique, CoveredBy(out, prefix))] &&
    CountUncoveredEdges(out, p, unique, CoveredBy(out, prefix)) > 0
  }

  /** The choices of a greedy run: each chosen path was picked after the ones before it. */
  ghost predicate Greedy(out: Index, paths: seq<Path>, unique: set<EdgeShape>, chosen: seq<Path>)
    decreases |chosen|
  {
    chosen == [] ||
    (Greedy(out, paths, unique, chosen[..|chosen| - 1]) &&
     PickedAfter(out, paths, unique, chosen[..|chosen| - 1], chosen[|chosen| - 1]))
  }

  lemma GreedySnoc(out: Index, paths: seq<Path>, unique: set<EdgeShape>, chosen: seq<Path>, p: Path)
    requires Greedy(out, paths, unique, chosen) && PickedAfter(out, paths, unique, chosen, p)
    ensures Greedy(out, paths, unique, chosen + [p])
  {
    assert (chosen + [p])[..|chosen|] == chosen;
  }

  /** Every greedy choice of the later generation has the most uncovered edges of its round. */
  lemma {:induction false} GreedyIsMaximal(out: Index, paths: seq<Path>, unique: set<EdgeShape>, chosen: seq<Path>)
    requires Greedy(out, paths, unique, chosen)
    ensures MaximalChoices(out, paths, unique, chosen)
    decreases |chosen|
  {
    if chosen != [] {
      var init := chosen[..|chosen| - 1];
      GreedyIsMaximal(out, paths, unique, init);
      var i := BestIndex(out, paths, unique, CoveredBy(out, init));
      assert paths[i] in paths;
    }
  }

  /**
   * `GetMinimumPaths`: while some distinct graph edge is uncovered, sorts the
   * paths by descending uncovered count (stably) and takes the first; it is
   * chosen and its edges covered when it is non-empty and the largest count
   * is positive, and otherwise the loop ends. `Max` fails on an empty list,
   * so the loop needs a path to look at whenever the graph has an edge.
   */
  method GetMinimumPaths(g: Graph, allPaths: seq<Path>) returns (minimalPathSet: seq<Path>)
    requires allPaths != [] || g.Edges() == {}
    ensures Greedy(g.outgoing, allPaths, g.Edges(), minimalPathSet)
    ensures NoDuplicates(minimalPathSet) && |minimalPathSet| <= |g.Edges()|
    ensures forall p | p in minimalPathSet :: p in allPaths
    ensures CoveredBy(g.outgoing, minimalPathSet) == g.Edges() ||
            forall p | p in allPaths :: CountUncoveredEdges(g.outgoing, p, g.Edges(), CoveredBy(g.outgoing, minimalPathSet)) == 0
  {
    var uniqueEdges := g.Edges();
    var coveredEdges: set<EdgeShape> := {};
    minimalPathSet := [];
    while |coveredEdges| < |uniqueEdges|
      invariant CoverState(g.outgoing, uniqueEdges, allPaths, minimalPathSet, coveredEdges)
      invariant Greedy(g.outgoing, allPaths, uniqueEdges, minimalPathSet)
      decreases |uniqueEdges| - |coveredEdges|
    {
      var ordered := OrderBy(Scored(g.outgoing, allPaths, uniqueEdges, coveredEdges), Descending);
      OrderedFirstIsBest(g.outgoing, allPaths, uniqueEdges, coveredEdges);
      var max := MaxCount(ordered);
      var path := ordered[0].1;
      if |path| > 0 && max > 0 {
        EdgesFromPathAreEdges(g, path);
        CoverStateStep(g.outgoing, uniqueEdges, allPaths, minimalPathSet, coveredEdges, path);
        GreedySnoc(g.outgoing, allPaths, uniqueEdges, minimalPathSet, path);
        minimalPathSet := minimalPathSet + [path];
        coveredEdges := coveredEdges + PathEdgeSet(g.outgoing, path);
      } else {
        break;
      }
    }
    if |coveredEdges| >= |uniqueEdges| {
      SubsetCard(coveredEdges, uniqueEdges);
    }
  }
}
