/**
 * The older path search (ZipTest.ConsoleHost): an exhaustive backtracking
 * depth-first search that records every simple path from a start to an end,
 * the pair loops that run it for every start and end, the loop that lists a
 * path's edges, and the greedy cover that re-sorts the path list in place
 * every round.
 */
module LegacyPathSearch {
  import opened Basics
  import opened Shapes
  import opened MultiGraph
  import opened GraphLinks
  import opened PageGraph
  import opened Candidates
  import opened Ordering
  import opened PathCover

  // ----- what one call of the search records -----

  /**
   * `q` is `prefix`, then `c`, then steps along children ending at `dest`,
   * with no vertex twice: a path the search entered at `c` with `prefix` on
   * its current path can still record.
   */
  ghost predicate Completes(out: Index, prefix: Path, c: VertexShape, dest: VertexShape, q: Path)
  {
    |q| > |prefix| && q[..|prefix|] == prefix && q[|prefix|] == c &&
    (forall i | |prefix| <= i < |q| - 1 :: q[i + 1] in Children(out, q[i])) &&
    NoDuplicates(q) && q[|q| - 1] == dest
  }

  /** Entered at the destination, the one completion is the current path itself. */
  lemma CompletesAtDest(out: Index, prefix: Path, c: VertexShape, q: Path)
    requires NoDuplicates(prefix) && c !in prefix
    ensures Completes(out, prefix, c, c, q) <==> q == prefix + [c]
  {
    if Completes(out, prefix, c, c, q) {
      assert q[|prefix|] == q[|q| - 1];
      assert q == q[..|prefix|] + [q[|prefix|]];
    }
    if q == prefix + [c] {
      NoDuplicatesSnoc(prefix, c);
      assert q[..|prefix|] == prefix;
    }
  }

  /**
   * Entered anywhere else, a completion continues through a child `n` of `c`
   * and is a completion of the search entered at `n` with `c` on the path.
   */
  lemma CompletesStep(out: Index, prefix: Path, c: VertexShape, dest: VertexShape, q: Path)
    requires c != dest
    ensures Completes(out, prefix, c, dest, q) <==>
            |q| > |prefix| + 1 && q[|prefix| + 1] in Children(out, c) && Completes(out, prefix + [c], q[|prefix| + 1], dest, q)
  {
    var k := |prefix|;
    if Completes(out, prefix, c, dest, q) {
      assert q[k] != q[|q| - 1];
      assert q[..k + 1] == q[..k] + [q[k]];
    }
    if |q| > k + 1 && q[k + 1] in Children(out, c) && Completes(out, prefix + [c], q[k + 1], dest, q) {
      assert q[..k] == q[..k + 1][..k];
      assert q[k] == q[..k + 1][k];
    }
  }

  /** A completion does not step back onto the path it extends. */
  lemma CompletesLeavesPath(out: Index, prefix: Path, c: VertexShape, dest: VertexShape, q: Path)
    requires Completes(out, prefix, c, dest, q) && |q| > |prefix| + 1
    ensures q[|prefix| + 1] !in prefix && q[|prefix| + 1] != c
  {
    assert forall m | 0 <= m < |prefix| :: prefix[m] == q[m] && q[m] != q[|prefix| + 1];
  }

  /** Started with an empty path, the completions are the simple paths. */
  lemma CompletesFromStart(out: Index, s: VertexShape, d: VertexShape, q: Path)
    ensures Completes(out, [], s, d, q) <==> SimplePath(out, q, s, d)
  {
  }

  /** A completion stays among the graph's vertices, the path's and `c`. */
  lemma CompletesWithin(out: Index, prefix: Path, c: VertexShape, dest: VertexShape, q: Path)
    requires Closed(out) && Completes(out, prefix, c, dest, q)
    ensures Within(q, out.Keys + (set v | v in prefix) + {c})
  {
    forall i | 0 <= i < |q| ensures q[i] in out.Keys + (set v | v in prefix) + {c} {
      if i < |prefix| {
        assert q[i] == q[..|prefix|][i];
      } else if i > |prefix| {
        assert q[i] in Children(out, q[i - 1]);
      }
    }
  }

  /**
   * One turn of the neighbour loop: the paths the search through `n`
   * recorded (none when `n` is already on the path) are the completions
   * through `n`, and they join those through the children seen before.
   * Completeness is stated for paths over the vertex domain `dom`.
   */
  /** Once every child of `c` has been searched, every completion within `dom` has been found. */
  lemma AllChildrenSeen(out: Index, dom: set<VertexShape>, prefix: Path, c: VertexShape, dest: VertexShape,
                        seen: set<VertexShape>, found: seq<Path>)
    requires c != dest && seen == Children(out, c)
    requires forall q | Within(q, dom) && |q| > |prefix| + 1 && q[|prefix| + 1] in seen && Completes(out, prefix, c, dest, q) :: q in found
    ensures forall q | Within(q, dom) && Completes(out, prefix, c, dest, q) :: q in found
  {
    forall q | Within(q, dom) && Completes(out, prefix, c, dest, q) ensures q in found {
      CompletesStep(out, prefix, c, dest, q);
    }
  }

  lemma CollectStep(out: Index, dom: set<VertexShape>, prefix: Path, c: VertexShape, dest: VertexShape, seen: set<VertexShape>,
                    n: VertexShape, found: seq<Path>, more: seq<Path>)
    requires c != dest && n in Children(out, c) && n !in seen
    requires NoDuplicates(found) && NoDuplicates(more)
    requires forall q | q in found :: |q| > |prefix| + 1 && q[|prefix| + 1] in seen && Completes(out, prefix, c, dest, q)
    requires forall q | Within(q, dom) && |q| > |prefix| + 1 && q[|prefix| + 1] in seen && Completes(out, prefix, c, dest, q) :: q in found
    requires n !in prefix && n != c ==>
               (forall q | q in more :: Completes(out, prefix + [c], n, dest, q)) &&
               (forall q | Within(q, dom) && Completes(out, prefix + [c], n, dest, q) :: q in more)
    requires n in prefix || n == c ==> more == []
    ensures forall q | q in found + more :: |q| > |prefix| + 1 && q[|prefix| + 1] in seen + {n} && Completes(out, prefix, c, dest, q)
    ensures forall q | Within(q, dom) && |q| > |prefix| + 1 && q[|prefix| + 1] in seen + {n} && Completes(out, prefix, c, dest, q) ::
              q in found + more
    ensures NoDuplicates(found + more)
  {
    forall q | q in more ensures |q| > |prefix| + 1 && q[|prefix| + 1] == n && Completes(out, prefix, c, dest, q) {
      CompletesStep(out, prefix, c, dest, q);
    }
    forall q | Within(q, dom) && |q| > |prefix| + 1 && q[|prefix| + 1] == n && Completes(out, prefix, c, dest, q)
      ensures q in more
    {
      CompletesStep(out, prefix, c, dest, q);
      CompletesLeavesPath(out, prefix, c, dest, q);
    }
    NoDuplicatesConcat(found, more);
  }

  // ----- the recursive search -----

  /** The state `FindPermutations` shares with its local recursive `DFS`. */
  class PathCollector {
    var visited: set<VertexShape>
    var currentPath: Path
    var permutationPath: seq<Path>

    /** `visited` holds exactly the vertices of `currentPath`, which repeats none. */
    ghost predicate Valid()
      reads this
    {
      NoDuplicates(currentPath) && visited == set v | v in currentPath
    }

    constructor ()
      ensures Valid() && currentPath == [] && permutationPath == []
    {
      visited, currentPath, permutationPath := {}, [], [];
    }

    /**
     * `DFS`: puts `currentNode` on the path; records the path when it is the
     * destination, and otherwise recurses into every child not yet on the
     * path; then takes `currentNode` off again. `found` is what this call
     * recorded: completions of the path through `currentNode`, each once, and
     * every completion over the vertex domain `dom`.
     */
    method DFS(g: Graph, currentNode: VertexShape, destinationNode: VertexShape, ghost dom: set<VertexShape>)
      returns (ghost found: seq<Path>)
      requires Valid() && currentNode !in visited && Closed(g.outgoing)
      requires g.Vertices() <= dom && visited <= dom && currentNode in dom
      modifies this
      ensures Valid() && visited == old(visited) && currentPath == old(currentPath)
      ensures permutationPath == old(permutationPath) + found
      ensures NoDuplicates(found)
      ensures forall q | q in found :: Completes(g.outgoing, old(currentPath), currentNode, destinationNode, q)
      ensures forall q | Within(q, dom) && Completes(g.outgoing, old(currentPath), currentNode, destinationNode, q) :: q in found
      decreases g.Vertices() - visited, 2
    {
      ghost var prefix := currentPath;
      visited := visited + {currentNode};
      currentPath := currentPath + [currentNode];
      NoDuplicatesSnoc(prefix, currentNode);
      assert visited == set v | v in currentPath;
      assert visited - {currentNode} == old(visited);
      if currentNode == destinationNode {
        permutationPath := permutationPath + [currentPath];
        found := [currentPath];
        forall q | Completes(g.outgoing, prefix, currentNode, destinationNode, q) ensures q in found {
          CompletesAtDest(g.outgoing, prefix, currentNode, q);
        }
        CompletesAtDest(g.outgoing, prefix, currentNode, currentPath);
      } else {
        found := VisitChildren(g, currentNode, destinationNode, prefix, dom);
      }
      visited := visited - {currentNode};
      currentPath := currentPath[..|currentPath| - 1];
      assert currentPath == prefix;
    }

    /**
     * The `foreach` over the children of `currentNode`, the last vertex of
     * the current path: the search from each child not on the path.
     */
    method VisitChildren(g: Graph, currentNode: VertexShape, destinationNode: VertexShape, ghost prefix: Path, ghost dom: set<VertexShape>)
      returns (ghost found: seq<Path>)
      requires Valid() && currentPath == prefix + [currentNode] && currentNode != destinationNode && Closed(g.outgoing)
      requires g.Vertices() <= dom && visited <= dom
      modifies this
      ensures Valid() && visited == old(visited) && currentPath == old(currentPath)
      ensures permutationPath == old(permutationPath) + found
      ensures NoDuplicates(found)
      ensures forall q | q in found :: Completes(g.outgoing, prefix, currentNode, destinationNode, q)
      ensures forall q | Within(q, dom) && Completes(g.outgoing, prefix, currentNode, destinationNode, q) :: q in found
      decreases g.Vertices() - (visited - {currentNode}), 1
    {
      found := [];
      var children := Enumerate(g.GetChildren(currentNode));
      ghost var seen: set<VertexShape> := {};
      for i := 0 to |children|
        invariant Valid() && visited == old(visited) && currentPath == old(currentPath)
        invariant permutationPath == old(permutationPath) + found && NoDuplicates(found)
        invariant seen == set j | 0 <= j < i :: children[j]
        invariant forall q | q in found ::
                    |q| > |prefix| + 1 && q[|prefix| + 1] in seen && Completes(g.outgoing, prefix, currentNode, destinationNode, q)
        invariant forall q | Within(q, dom) && |q| > |prefix| + 1 && q[|prefix| + 1] in seen &&
                             Completes(g.outgoing, prefix, currentNode, destinationNode, q) :: q in found
      {
        var neighbor := children[i];
        assert neighbor in g.GetChildren(currentNode);
        assert forall j | 0 <= j < i :: children[j] != neighbor;
        ghost var more;
        more := VisitChild(g, currentNode, destinationNode, neighbor, prefix, dom);
        ConcatAssociates(old(permutationPath), found, more);
        CollectStep(g.outgoing, dom, prefix, currentNode, destinationNode, seen, neighbor, found, more);
        found := found + more;
        seen := seen + {neighbor};
      }
      assert seen == Children(g.outgoing, currentNode);
      AllChildrenSeen(g.outgoing, dom, prefix, currentNode, destinationNode, seen, found);
    }

    /** One round of the `foreach`: the search from `neighbor` when it is not on the path, and nothing otherwise. */
    method VisitChild(g: Graph, currentNode: VertexShape, destinationNode: VertexShape, neighbor: VertexShape,
                      ghost prefix: Path, ghost dom: set<VertexShape>)
      returns (ghost more: seq<Path>)
      requires Valid() && currentPath == prefix + [currentNode] && currentNode != destinationNode && Closed(g.outgoing)
      requires g.Vertices() <= dom && visited <= dom && neighbor in g.GetChildren(currentNode)
      modifies this
      ensures Valid() && visited == old(visited) && currentPath == old(currentPath)
      ensures permutationPath == old(permutationPath) + more
      ensures NoDuplicates(more)
      ensures neighbor !in prefix && neighbor != currentNode ==>
                (forall q | q in more :: Completes(g.outgoing, prefix + [currentNode], neighbor, destinationNode, q)) &&
                (forall q | Within(q, dom) && Completes(g.outgoing, prefix + [currentNode], neighbor, destinationNode, q) :: q in more)
      ensures neighbor in prefix || neighbor == currentNode ==> more == []
      decreases g.Vertices() - (visited - {currentNode}), 0
    {
      more := [];
      assert neighbor in visited <==> neighbor in prefix || neighbor == currentNode;
      if neighbor !in visited {
        assert currentNode in g.Vertices() && currentNode in visited;
        more := DFS(g, neighbor, destinationNode, dom);
      }
    }
  }

  /**
   * `FindPermutations`: every simple path from `startNode` to `endNode`,
   * each once. (Every simple path lies within the graph's vertices and the
   * start, by `SimplePathWithin`.)
   */
  method FindPermutations(g: Graph, startNode: VertexShape, endNode: VertexShape) returns (permutationPath: seq<Path>)
    requires Closed(g.outgoing)
    ensures NoDuplicates(permutationPath)
    ensures forall q | q in permutationPath :: SimplePath(g.outgoing, q, startNode, endNode)
    ensures forall q | Within(q, g.Vertices() + {startNode}) && SimplePath(g.outgoing, q, startNode, endNode) :: q in permutationPath
  {
    var search := new PathCollector();
    ghost var found := search.DFS(g, startNode, endNode, g.Vertices() + {startNode});
    permutationPath := search.permutationPath;
    forall q | Within(q, g.Vertices() + {startNode}) && SimplePath(g.outgoing, q, startNode, endNode) ensures q in permutationPath {
      CompletesFromStart(g.outgoing, startNode, endNode, q);
    }
    forall q | q in permutationPath ensures SimplePath(g.outgoing, q, startNode, endNode) {
      CompletesFromStart(g.outgoing, startNode, endNode, q);
    }
  }

  // ----- every start with every end -----

  /** The inner loop for one start: the paths to each end in turn, appended; `row[j]` holds those ending at `ends[j]`. */
  method PathsFromStart(g: Graph, start: VertexShape, ends: seq<VertexShape>) returns (found: seq<Path>, ghost row: seq<seq<Path>>)
    requires Closed(g.outgoing) && start in g.Vertices()
    ensures |row| == |ends| && found == Concat(row)
    ensures forall j, q | 0 <= j < |ends| && q in row[j] :: SimplePath(g.outgoing, q, start, ends[j])
    ensures forall j, q | 0 <= j < |ends| && Within(q, g.Vertices()) && SimplePath(g.outgoing, q, start, ends[j]) :: q in row[j]
    ensures forall j | 0 <= j < |ends| :: NoDuplicates(row[j])
  {
    assert g.Vertices() + {start} == g.Vertices();
    found, row := [], [];
    for j := 0 to |ends|
      invariant |row| == j && found == Concat(row)
      invariant forall b, q | 0 <= b < j && q in row[b] :: SimplePath(g.outgoing, q, start, ends[b])
      invariant forall b, q | 0 <= b < j && Within(q, g.Vertices()) && SimplePath(g.outgoing, q, start, ends[b]) :: q in row[b]
      invariant forall b | 0 <= b < j :: NoDuplicates(row[b])
    {
      var permutations := FindPermutations(g, start, ends[j]);
      ConcatSnoc(row, permutations);
      assert forall b | 0 <= b < j :: (row + [permutations])[b] == row[b];
      assert (row + [permutations])[j] == permutations;
      found, row := found + permutations, row + [permutations];
    }
  }

  /**
   * `GetAllPermutations`: selects the starts and ends over one enumeration
   * `order` of the vertices, then appends the paths of every start and end
   * pair and counts them. `blocks[i][j]` holds the paths from `starts[i]`
   * to `ends[j]`: the simple ones, all of them.
   */
  method GetAllPermutations(g: Graph, nodeOption: string, startContent: Option<string>, endContent: Option<string>)
    returns (allPaths: seq<Path>, numPaths: nat, order: seq<VertexShape>, starts: seq<VertexShape>, ends: seq<VertexShape>,
             ghost blocks: seq<seq<seq<Path>>>)
    requires g.Valid() && |nodeOption| >= 1
    ensures NoDuplicates(order) && (set v | v in order) == g.Vertices()
    ensures (starts, ends) == GetSpecifiedNodes(order, nodeOption, startContent, endContent, Sources(g.outgoing), Sources(g.incoming))
    ensures |blocks| == |starts| && forall i | 0 <= i < |starts| :: |blocks[i]| == |ends|
    ensures allPaths == Flatten(blocks) && numPaths == |allPaths|
    ensures forall i, j, q | 0 <= i < |starts| && 0 <= j < |ends| && q in blocks[i][j] :: SimplePath(g.outgoing, q, starts[i], ends[j])
    ensures forall i, j, q | 0 <= i < |starts| && 0 <= j < |ends| && Within(q, g.Vertices()) && SimplePath(g.outgoing, q, starts[i], ends[j]) ::
              q in blocks[i][j]
    ensures forall i, j | 0 <= i < |starts| && 0 <= j < |ends| :: NoDuplicates(blocks[i][j])
  {
    order := Enumerate(g.Vertices());
    starts := FilterCandidates(g, order, SelectionMark(nodeOption[0], startContent), true);
    ends := FilterCandidates(g, order, SelectionMark(nodeOption[0], endContent), false);
    assert forall v | v in starts :: v in g.Vertices();
    allPaths, blocks := PathsFromStarts(g, starts, ends);
    numPaths := |allPaths|;
  }

  /** The outer loop of `GetAllPermutations`: the paths of every start in turn, counted as they are appended. */
  method PathsFromStarts(g: Graph, starts: seq<VertexShape>, ends: seq<VertexShape>)
    returns (allPaths: seq<Path>, ghost blocks: seq<seq<seq<Path>>>)
    requires Closed(g.outgoing) && forall v | v in starts :: v in g.Vertices()
    ensures |blocks| == |starts| && forall i | 0 <= i < |starts| :: |blocks[i]| == |ends|
    ensures allPaths == Flatten(blocks)
    ensures forall i, j, q | 0 <= i < |starts| && 0 <= j < |ends| && q in blocks[i][j] :: SimplePath(g.outgoing, q, starts[i], ends[j])
    ensures forall i, j, q | 0 <= i < |starts| && 0 <= j < |ends| && Within(q, g.Vertices()) && SimplePath(g.outgoing, q, starts[i], ends[j]) ::
              q in blocks[i][j]
    ensures forall i, j | 0 <= i < |starts| && 0 <= j < |ends| :: NoDuplicates(blocks[i][j])
  {
    allPaths, blocks := [], [];
    var numPaths := 0;
    for i := 0 to |starts|
      invariant |blocks| == i && RowsOfPaths(g.outgoing, starts, ends, blocks)
      invariant allPaths == Flatten(blocks) && numPaths == |allPaths|
      invariant forall a, b, q | 0 <= a < i && 0 <= b < |ends| && Within(q, g.Vertices()) && SimplePath(g.outgoing, q, starts[a], ends[b]) ::
                  q in blocks[a][b]
    {
      var found;
      ghost var row;
      found, row := PathsFromStart(g, starts[i], ends);
      FlattenSnoc(blocks, row);
      RowsOfPathsSnoc(g.outgoing, starts, ends, blocks, row);
      assert forall a | 0 <= a < i :: (blocks + [row])[a] == blocks[a];
      assert (blocks + [row])[i] == row;
      allPaths, numPaths, blocks := allPaths + found, numPaths + |found|, blocks + [row];
    }
  }

  // ----- the edges of a path -----

  /**
   * `edges.AddRange(bucket.Where(edge => !edges.Contains(edge)))`: `AddRange`
   * consumes the `Where` lazily, so each edge is checked against the list as
   * it has grown.
   */
  method AddNew(edges: seq<EdgeShape>, bucket: seq<EdgeShape>, ghost done: seq<EdgeShape>) returns (r: seq<EdgeShape>)
    requires edges == Distinct(done)
    ensures r == Distinct(done + bucket)
  {
    r := edges;
    for k := 0 to |bucket|
      invariant r == Extend(edges, bucket[..k])
    {
      assert bucket[..k + 1][..k] == bucket[..k];
      if bucket[k] !in r {
        r := r + [bucket[k]];
      }
    }
    assert bucket[..|bucket|] == bucket;
    ExtendDistinct(done, bucket);
  }

  /** `list` with each element of `xs` appended in turn when the list does not hold it yet. */
  function Extend(list: seq<EdgeShape>, xs: seq<EdgeShape>): seq<EdgeShape>
    decreases |xs|
  {
    if xs == [] then list
    else
      var p := Extend(list, xs[..|xs| - 1]);
      if xs[|xs| - 1] in p then p else p + [xs[|xs| - 1]]
  }

  /** Extending the distinct elements of `done` by `xs` gives the distinct elements of `done + xs`. */
  lemma {:induction false} ExtendDistinct(done: seq<EdgeShape>, xs: seq<EdgeShape>)
    ensures Extend(Distinct(done), xs) == Distinct(done + xs)
    decreases |xs|
  {
    if xs == [] {
      assert done + xs == done;
    } else {
      var init, x := xs[..|xs| - 1], xs[|xs| - 1];
      ExtendDistinct(done, init);
      DistinctSnoc(done + init, x);
      assert xs == init + [x];
      ConcatAssociates(done, init, [x]);
    }
  }

  /** `GetEdgesFromPath`: for each step of the path, appends the bucket's edges that the list does not hold yet. */
  method GetEdgesFromPath(g: Graph, path: Path) returns (edges: seq<EdgeShape>)
    ensures edges == EdgesFromPath(g.outgoing, path)
  {
    edges := [];
    var i := 0;
    while i < |path| - 1
      invariant 0 <= i && (path != [] ==> i < |path|)
      invariant edges == Distinct(StepEdges(g.outgoing, path[..if path == [] then 0 else i + 1]))
    {
      edges := AddNew(edges, g.GetEdges(path[i], path[i + 1]), StepEdges(g.outgoing, path[..i + 1]));
      assert path[..i + 2][..i + 1] == path[..i + 1];
      i := i + 1;
    }
    assert path[..if path == [] then 0 else i + 1] == path;
  }

  // ----- the greedy cover -----

  /** The comparison of the in-place sort, as an ascending key: descending uncovered count. */
  function UncoveredKey(out: Index, unique: set<EdgeShape>, covered: set<EdgeShape>): Path -> int
  {
    p => -(CountUncoveredEdges(out, p, unique, covered) as int)
  }

  /**
   * `List.Sort` with that comparison: the array becomes a permutation of
   * itself ordered by the key. `List.Sort` leaves the order of ties open;
   * this one keeps them in their input order.
   */
  method SortPaths(a: array<Path>, key: Path -> int)
    modifies a
    ensures multiset(a[..]) == multiset(old(a[..])) && SortedBy(a[..], key)
  {
    var sorted := OrderBy(a[..], key);
    OrderByIsStableSort(a[..], key);
    assert |sorted| == |multiset(sorted)| == |multiset(a[..])| == a.Length;
    forall i | 0 <= i < a.Length {
      a[i] := sorted[i];
    }
    assert a[..] == sorted;
  }

  /** `FirstOrDefault(p => count > 0)`: the first path with an uncovered edge, if any. */
  method FirstUncovering(a: array<Path>, out: Index, unique: set<EdgeShape>, covered: set<EdgeShape>) returns (r: Option<Path>)
    ensures r.None? <==> forall j | 0 <= j < a.Length :: CountUncoveredEdges(out, a[j], unique, covered) == 0
    ensures r.Some? ==> exists k | 0 <= k < a.Length :: a[k] == r.value && CountUncoveredEdges(out, a[k], unique, covered) > 0 &&
                          forall j | 0 <= j < k :: CountUncoveredEdges(out, a[j], unique, covered) == 0
  {
    for i := 0 to a.Length
      invariant forall j | 0 <= j < i :: CountUncoveredEdges(out, a[j], unique, covered) == 0
    {
      if CountUncoveredEdges(out, a[i], unique, covered) > 0 {
        return Some(a[i]);
      }
    }
    return None;
  }

  /** In a list sorted by descending count, the first path with a positive count has the largest count. */
  lemma FirstUncoveringIsMaximal(s: seq<Path>, out: Index, unique: set<EdgeShape>, covered: set<EdgeShape>, k: nat)
    requires SortedBy(s, UncoveredKey(out, unique, covered)) && k < |s|
    requires CountUncoveredEdges(out, s[k], unique, covered) > 0
    requires forall j | 0 <= j < k :: CountUncoveredEdges(out, s[j], unique, covered) == 0
    ensures forall q | q in s :: CountUncoveredEdges(out, q, unique, covered) <= CountUncoveredEdges(out, s[k], unique, covered)
  {
    var key := UncoveredKey(out, unique, covered);
    assert key(s[0]) <= key(s[k]);
    assert k == 0;
    forall q | q in s ensures CountUncoveredEdges(out, q, unique, covered) <= CountUncoveredEdges(out, s[k], unique, covered) {
      var j :| 0 <= j < |s| && s[j] == q;
      if j > 0 {
        assert key(s[0]) <= key(s[j]);
      }
    }
  }

  /**
   * `GetMinimumPaths`: while some distinct graph edge is uncovered, sorts
   * the path list in place by descending uncovered count and takes the first
   * path that has one, covering its edges; when none has one, the loop ends.
   */
  method GetMinimumPaths(g: Graph, allPaths: array<Path>) returns (minimalPathSet: seq<Path>)
    modifies allPaths
    ensures multiset(allPaths[..]) == multiset(old(allPaths[..]))
    ensures MaximalChoices(g.outgoing, old(allPaths[..]), g.Edges(), minimalPathSet)
    ensures NoDuplicates(minimalPathSet) && |minimalPathSet| <= |g.Edges()|
    ensures forall p | p in minimalPathSet :: p in old(allPaths[..])
    ensures CoveredBy(g.outgoing, minimalPathSet) == g.Edges() ||
            forall p | p in old(allPaths[..]) :: CountUncoveredEdges(g.outgoing, p, g.Edges(), CoveredBy(g.outgoing, minimalPathSet)) == 0
  {
    ghost var paths := allPaths[..];
    var uniqueEdges := g.Edges();
    var coveredEdges: set<EdgeShape> := {};
    minimalPathSet := [];
    while |coveredEdges| < |uniqueEdges|
      invariant multiset(allPaths[..]) == multiset(paths)
      invariant CoverState(g.outgoing, uniqueEdges, paths, minimalPathSet, coveredEdges)
      invariant MaximalChoices(g.outgoing, paths, uniqueEdges, minimalPathSet)
      decreases |uniqueEdges| - |coveredEdges|
    {
      SortPaths(allPaths, UncoveredKey(g.outgoing, uniqueEdges, coveredEdges));
      var path := FirstUncovering(allPaths, g.outgoing, uniqueEdges, coveredEdges);
      if path.Some? {
        SelectionIsMaximal(g.outgoing, paths, allPaths[..], uniqueEdges, minimalPathSet, coveredEdges, path.value);
        EdgesFromPathAreEdges(g, path.value);
        CoverStateStep(g.outgoing, uniqueEdges, paths, minimalPathSet, coveredEdges, path.value);
        MaximalChoicesSnoc(g.outgoing, paths, uniqueEdges, minimalPathSet, path.value);
        var edges := GetEdgesFromPath(g, path.value);
        minimalPathSet := minimalPathSet + [path.value];
        coveredEdges := coveredEdges + set e | e in edges;
      } else {
        NoneUncovering(g.outgoing, paths, allPaths[..], uniqueEdges, coveredEdges);
        break;
      }
    }
    if |coveredEdges| >= |uniqueEdges| {
      SubsetCard(coveredEdges, uniqueEdges);
    }
  }

  /** The path a round takes from the re-sorted list is a maximal choice among the original paths. */
  lemma SelectionIsMaximal(out: Index, paths: seq<Path>, sorted: seq<Path>, unique: set<EdgeShape>, chosen: seq<Path>,
                           covered: set<EdgeShape>, p: Path)
    requires multiset(sorted) == multiset(paths) && covered == CoveredBy(out, chosen)
    requires SortedBy(sorted, UncoveredKey(out, unique, covered))
    requires exists k | 0 <= k < |sorted| :: sorted[k] == p && CountUncoveredEdges(out, sorted[k], unique, covered) > 0 &&
               forall j | 0 <= j < k :: CountUncoveredEdges(out, sorted[j], unique, covered) == 0
    ensures MaximalAfter(out, paths, unique, chosen, p)
  {
    var k :| 0 <= k < |sorted| && sorted[k] == p && CountUncoveredEdges(out, sorted[k], unique, covered) > 0 &&
             forall j | 0 <= j < k :: CountUncoveredEdges(out, sorted[j], unique, covered) == 0;
    FirstUncoveringIsMaximal(sorted, out, unique, covered, k);
    assert p in multiset(paths) by {
      assert p in multiset(sorted);
    }
    forall q | q in paths ensures q in sorted {
      assert q in multiset(sorted);
    }
  }

  /** When no path of the re-sorted list has an uncovered edge, none of the original paths has. */
  lemma NoneUncovering(out: Index, paths: seq<Path>, sorted: seq<Path>, unique: set<EdgeShape>, covered: set<EdgeShape>)
    requires multiset(sorted) == multiset(paths)
    requires forall j | 0 <= j < |sorted| :: CountUncoveredEdges(out, sorted[j], unique, covered) == 0
    ensures forall q | q in paths :: CountUncoveredEdges(out, q, unique, covered) == 0
  {
    forall q | q in paths ensures CountUncoveredEdges(out, q, unique, covered) == 0 {
      assert q in multiset(sorted);
      var j :| 0 <= j < |sorted| && sorted[j] == q;
    }
  }
}
