/**
 * What both generations of the path search share: when a vertex sequence is
 * a path of the flow graph, which vertices a run selects as starts and ends,
 * which edges a path covers, and how many of them a cover still lacks.
 *
 * Everything here is a value-level function of the graph's outgoing index,
 * so that the search methods can state their results about `g.outgoing`.
 */
module PathCover {
  import opened Basics
  import opened Shapes
  import opened MultiGraph
  import opened GraphLinks
  import opened PageGraph
  import opened Candidates

  type Index = map<VertexShape, map<VertexShape, seq<EdgeShape>>>
  type Path = seq<VertexShape>

  /** `GetChildren` on an outgoing index. */
  function Children(out: Index, v: VertexShape): set<VertexShape>
  {
    if v in out then out[v].Keys else {}
  }

  /** Every vertex after the first is a child of the one before it. */
  predicate Walk(out: Index, p: Path)
  {
    forall i | 0 <= i < |p| - 1 :: p[i + 1] in Children(out, p[i])
  }

  /** A path from `s` to `d` that visits no vertex twice. */
  predicate SimplePath(out: Index, p: Path, s: VertexShape, d: VertexShape)
  {
    p != [] && p[0] == s && p[|p| - 1] == d && Walk(out, p) && NoDuplicates(p)
  }

  /** Every vertex of `q` is in `vs`. */
  predicate Within(q: Path, vs: set<VertexShape>)
  {
    forall i | 0 <= i < |q| :: q[i] in vs
  }

  /** A path that walks along children stays among the graph's vertices after its first. */
  lemma SimplePathWithin(out: Index, q: Path, s: VertexShape, d: VertexShape)
    requires Closed(out) && SimplePath(out, q, s, d)
    ensures Within(q, out.Keys + {s})
  {
    forall i | 0 < i < |q| ensures q[i] in out.Keys {
      assert q[i] in Children(out, q[i - 1]);
    }
  }

  // ----- start and end selection -----

  /** The test a mode character selects: '1' compares `MasterId`, '2' compares `Text`, anything else accepts every vertex. */
  function SelectionMark(mode: char, content: Option<string>): Mark
  {
    if mode == '1' then Master(content) else if mode == '2' then Texted(content) else Unmarked
  }

  /**
   * `GetSpecifiedNodes`: the starts and the ends of a run, over the vertex
   * enumeration `order`, where `hasOut` holds the vertices with a child and
   * `hasIn` those with a parent. The first character of the mode string
   * chooses the test.
   */
  function GetSpecifiedNodes(order: seq<VertexShape>, nodeOption: string, startContent: Option<string>, endContent: Option<string>,
                             hasOut: set<VertexShape>, hasIn: set<VertexShape>): (r: (seq<VertexShape>, seq<VertexShape>))
    requires |nodeOption| >= 1
    ensures forall v | v in r.0 :: v !in r.1
    ensures NoDuplicates(order) ==> NoDuplicates(r.0) && NoDuplicates(r.1)
  {
    (Candidates.Candidates(order, SelectionMark(nodeOption[0], startContent), true, hasOut, hasIn),
     Candidates.Candidates(order, SelectionMark(nodeOption[0], endContent), false, hasOut, hasIn))
  }

  /** On a consistent graph, a start has in-degree 0 and positive out-degree, an end the reverse, and each passes its content test. */
  lemma SpecifiedNodesByDegree(g: Graph, order: seq<VertexShape>, nodeOption: string, startContent: Option<string>,
                               endContent: Option<string>, v: VertexShape)
    requires g.Valid() && |nodeOption| >= 1
    ensures var r := GetSpecifiedNodes(order, nodeOption, startContent, endContent, Sources(g.outgoing), Sources(g.incoming));
      (v in r.0 <==> v in order && Marked(v, SelectionMark(nodeOption[0], startContent)) && g.InDegree(v) == 0 && g.OutDegree(v) > 0) &&
      (v in r.1 <==> v in order && Marked(v, SelectionMark(nodeOption[0], endContent)) && g.OutDegree(v) == 0 && g.InDegree(v) > 0)
  {
    SourcesAreDegrees(g.outgoing, g.incoming, v);
  }

  // ----- the edges of a path -----

  /** The buckets between consecutive vertices of `p`, concatenated in path order. */
  function StepEdges(out: Index, p: Path): seq<EdgeShape>
    decreases |p|
  {
    if |p| < 2 then [] else StepEdges(out, p[..|p| - 1]) + Bucket(out, p[|p| - 2], p[|p| - 1])
  }

  /** `GetEdgesFromPath`: every edge between consecutive vertices of `p`, once, in first-seen order. */
  function EdgesFromPath(out: Index, p: Path): (r: seq<EdgeShape>)
    ensures NoDuplicates(r)
  {
    Distinct(StepEdges(out, p))
  }

  /** An edge is on a path exactly when it lies in the bucket of one of the path's steps. */
  lemma {:induction false} EdgesFromPathSteps(out: Index, p: Path, e: EdgeShape)
    ensures e in EdgesFromPath(out, p) <==> exists i | 0 <= i < |p| - 1 :: e in Bucket(out, p[i], p[i + 1])
    decreases |p|
  {
    if |p| >= 2 {
      var init := p[..|p| - 1];
      EdgesFromPathSteps(out, init, e);
      assert forall i | 0 <= i < |init| :: init[i] == p[i];
      if e in Bucket(out, p[|p| - 2], p[|p| - 1]) {
        assert e in StepEdges(out, p);
      } else if exists i | 0 <= i < |p| - 1 :: e in Bucket(out, p[i], p[i + 1]) {
        var i :| 0 <= i < |p| - 1 && e in Bucket(out, p[i], p[i + 1]);
        assert i < |init| - 1;
      }
    }
  }

  /** The edges of a path are edges of the graph. */
  lemma EdgesFromPathAreEdges(g: Graph, p: Path)
    ensures forall e | e in EdgesFromPath(g.outgoing, p) :: e in g.Edges()
  {
    forall e | e in EdgesFromPath(g.outgoing, p) ensures e in g.Edges() {
      EdgesFromPathSteps(g.outgoing, p, e);
      var i :| 0 <= i < |p| - 1 && e in Bucket(g.outgoing, p[i], p[i + 1]);
    }
  }

  /** A path of fewer than two vertices has no edge. */
  lemma ShortPathHasNoEdges(out: Index, p: Path)
    requires |p| < 2
    ensures EdgesFromPath(out, p) == []
  {
  }

  // ----- coverage -----

  function PathEdgeSet(out: Index, p: Path): set<EdgeShape>
  {
    set e | e in EdgesFromPath(out, p)
  }

  /** The edges of `p` that are in `unique` and not in `covered`. */
  function UncoveredOf(out: Index, p: Path, unique: set<EdgeShape>, covered: set<EdgeShape>): set<EdgeShape>
  {
    set e | e in EdgesFromPath(out, p) && e in unique && e !in covered
  }

  /**
   * `CountUncoveredEdges`: the path's edges that are in `unique` and not in
   * `covered`, counted over the duplicate-free edge list. The later
   * generation filters with `Intersect` then `Except`, the older one with a
   * `Count` predicate; on a duplicate-free list both keep the same elements.
   */
  function CountUncoveredEdges(out: Index, p: Path, unique: set<EdgeShape>, covered: set<EdgeShape>): (r: nat)
    ensures r == |UncoveredOf(out, p, unique, covered)|
  {
    var kept := Keep(EdgesFromPath(out, p), unique - covered);
    NoDuplicatesCard(kept);
    assert (set e | e in kept) == UncoveredOf(out, p, unique, covered);
    |kept|
  }

  /** The edges of the paths chosen so far (the `UnionWith` of each chosen path's edges). */
  function CoveredBy(out: Index, paths: seq<Path>): set<EdgeShape>
    decreases |paths|
  {
    if paths == [] then {} else CoveredBy(out, paths[..|paths| - 1]) + PathEdgeSet(out, paths[|paths| - 1])
  }

  lemma CoveredBySnoc(out: Index, paths: seq<Path>, p: Path)
    ensures CoveredBy(out, paths + [p]) == CoveredBy(out, paths) + PathEdgeSet(out, p)
  {
    assert (paths + [p])[..|paths|] == paths;
  }

  /** A chosen path has nothing left to cover. */
  lemma {:induction false} ChosenPathsAreCovered(out: Index, paths: seq<Path>, unique: set<EdgeShape>)
    ensures forall p | p in paths :: CountUncoveredEdges(out, p, unique, CoveredBy(out, paths)) == 0
    decreases |paths|
  {
    if paths != [] {
      var init := paths[..|paths| - 1];
      ChosenPathsAreCovered(out, init, unique);
      forall p | p in paths ensures UncoveredOf(out, p, unique, CoveredBy(out, paths)) == {} {
        if p != paths[|paths| - 1] {
          assert p in init;
          assert UncoveredOf(out, p, unique, CoveredBy(out, init)) == {};
        }
      }
    }
  }

  /** The chosen paths cover only graph edges. */
  lemma {:induction false} CoveredByAreEdges(g: Graph, paths: seq<Path>)
    ensures CoveredBy(g.outgoing, paths) <= g.Edges()
    decreases |paths|
  {
    if paths != [] {
      CoveredByAreEdges(g, paths[..|paths| - 1]);
      EdgesFromPathAreEdges(g, paths[|paths| - 1]);
    }
  }

  /**
   * Adding a path that still has uncovered edges strictly enlarges the
   * covered set; with the path's edges inside `unique` it stays inside.
   */
  lemma CoverGrows(out: Index, p: Path, unique: set<EdgeShape>, covered: set<EdgeShape>)
    requires CountUncoveredEdges(out, p, unique, covered) > 0
    ensures |covered + PathEdgeSet(out, p)| > |covered|
  {
    var e :| e in UncoveredOf(out, p, unique, covered);
    var extra := PathEdgeSet(out, p) - covered;
    assert e in extra && covered * extra == {};
    assert covered + PathEdgeSet(out, p) == covered + extra;
    assert extra == (extra - {e}) + {e};
  }

  // ----- the pair loops -----

  /** The paths of a row of blocks, concatenated. */
  function Concat(row: seq<seq<Path>>): seq<Path>
    decreases |row|
  {
    if row == [] then [] else Concat(row[..|row| - 1]) + row[|row| - 1]
  }

  /** The paths of all blocks, row by row. */
  function Flatten(blocks: seq<seq<seq<Path>>>): seq<Path>
    decreases |blocks|
  {
    if blocks == [] then [] else Flatten(blocks[..|blocks| - 1]) + Concat(blocks[|blocks| - 1])
  }

  lemma ConcatSnoc(row: seq<seq<Path>>, ps: seq<Path>)
    ensures Concat(row + [ps]) == Concat(row) + ps
  {
    assert (row + [ps])[..|row|] == row;
  }

  lemma FlattenSnoc(blocks: seq<seq<seq<Path>>>, row: seq<seq<Path>>)
    ensures Flatten(blocks + [row]) == Flatten(blocks) + Concat(row)
  {
    assert (blocks + [row])[..|blocks|] == blocks;
  }

  /** `row[j]` holds simple paths from `start` to `ends[j]`, each once. */
  ghost predicate RowOfPaths(out: Index, start: VertexShape, ends: seq<VertexShape>, row: seq<seq<Path>>)
  {
    |row| == |ends| &&
    (forall j, q | 0 <= j < |ends| && q in row[j] :: SimplePath(out, q, start, ends[j])) &&
    (forall j | 0 <= j < |ends| :: NoDuplicates(row[j]))
  }

  /** A block of rows, one per start, each a `RowOfPaths`. */
  ghost predicate RowsOfPaths(out: Index, starts: seq<VertexShape>, ends: seq<VertexShape>, blocks: seq<seq<seq<Path>>>)
  {
    |blocks| <= |starts| && forall a | 0 <= a < |blocks| :: RowOfPaths(out, starts[a], ends, blocks[a])
  }

  lemma RowsOfPathsSnoc(out: Index, starts: seq<VertexShape>, ends: seq<VertexShape>, blocks: seq<seq<seq<Path>>>,
                        row: seq<seq<Path>>)
    requires RowsOfPaths(out, starts, ends, blocks) && |blocks| < |starts|
    requires RowOfPaths(out, starts[|blocks|], ends, row)
    ensures RowsOfPaths(out, starts, ends, blocks + [row])
  {
    assert forall a | 0 <= a < |blocks| :: (blocks + [row])[a] == blocks[a];
    assert (blocks + [row])[|blocks|] == row;
  }

  // ----- the state of a cover loop -----

  /** What holds between rounds of a cover loop: `covered` is what the distinct chosen paths cover. */
  ghost predicate CoverState(out: Index, edges: set<EdgeShape>, allPaths: seq<Path>, chosen: seq<Path>, covered: set<EdgeShape>)
  {
    covered == CoveredBy(out, chosen) && covered <= edges &&
    NoDuplicates(chosen) && |chosen| <= |covered| &&
    forall p | p in chosen :: p in allPaths
  }

  /** A path with something left to cover is not among the chosen ones: those have nothing left. */
  lemma UncoveringIsNew(out: Index, unique: set<EdgeShape>, chosen: seq<Path>, p: Path)
    requires CountUncoveredEdges(out, p, unique, CoveredBy(out, chosen)) > 0
    ensures p !in chosen
  {
    ChosenPathsAreCovered(out, chosen, unique);
  }

  /** Choosing a path with an uncovered edge keeps the state and strictly enlarges the covered set. */
  lemma CoverStateStep(out: Index, edges: set<EdgeShape>, allPaths: seq<Path>, chosen: seq<Path>, covered: set<EdgeShape>, p: Path)
    requires CoverState(out, edges, allPaths, chosen, covered) && p in allPaths && PathEdgeSet(out, p) <= edges
    requires CountUncoveredEdges(out, p, edges, covered) > 0
    ensures CoverState(out, edges, allPaths, chosen + [p], covered + PathEdgeSet(out, p))
    ensures |covered + PathEdgeSet(out, p)| > |covered|
  {
    CoverGrows(out, p, edges, covered);
    CoveredBySnoc(out, chosen, p);
    UncoveringIsNew(out, edges, chosen, p);
    NoDuplicatesSnoc(chosen, p);
  }

  /**
   * `p` is a path of `paths` with the most edges left uncovered once the
   * paths `prefix` were chosen, and it has at least one.
   */
  ghost predicate MaximalAfter(out: Index, paths: seq<Path>, unique: set<EdgeShape>, prefix: seq<Path>, p: Path)
  {
    p in paths && CountUncoveredEdges(out, p, unique, CoveredBy(out, prefix)) > 0 &&
    forall q | q in paths :: CountUncoveredEdges(out, q, unique, CoveredBy(out, prefix)) <= CountUncoveredEdges(out, p, unique, CoveredBy(out, prefix))
  }

  /** Every path of `chosen` was a maximal choice after the ones before it: the greedy rule, whatever breaks the ties. */
  ghost predicate MaximalChoices(out: Index, paths: seq<Path>, unique: set<EdgeShape>, chosen: seq<Path>)
    decreases |chosen|
  {
    chosen == [] ||
    (MaximalChoices(out, paths, unique, chosen[..|chosen| - 1]) &&
     MaximalAfter(out, paths, unique, chosen[..|chosen| - 1], chosen[|chosen| - 1]))
  }

  lemma MaximalChoicesSnoc(out: Index, paths: seq<Path>, unique: set<EdgeShape>, chosen: seq<Path>, p: Path)
    requires MaximalChoices(out, paths, unique, chosen) && MaximalAfter(out, paths, unique, chosen, p)
    ensures MaximalChoices(out, paths, unique, chosen + [p])
  {
    assert (chosen + [p])[..|chosen|] == chosen;
  }

  /** A subset at least as large as its superset is all of it: the loop test `|covered| < |unique|` fails only once everything is covered. */
  lemma SubsetCard(a: set<EdgeShape>, b: set<EdgeShape>)
    requires a <= b && |a| >= |b|
    ensures a == b
  {
    assert b == a + (b - a);
    assert a * (b - a) == {};
  }
}
