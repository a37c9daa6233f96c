/**
 * Reference linking of the later builder (VisioParse `ConnectReferenceShapes`),
 * run on the merged graph of all pages: an end reference, a vertex where a
 * page's flow stops, gets an edge to the start reference where the flow goes
 * on.
 *
 * Both kinds of linking index the start candidates by a string key first,
 * then walk the end candidates. The candidate tests are lazy filters over
 * one snapshot of the vertex set, so each end is checked against the graph
 * as it is when the walk reaches it. The walk is specified by `Joins`, a
 * function of the enumeration order and the degree state, and the lemmas
 * below state what it links.
 */
module ReferenceLinking {
  import opened Basics
  import opened Shapes
  import opened MultiGraph
  import opened GraphLinks
  import opened PageGraph
  import opened Candidates

  /** What an end does when its key finds no start: nothing, or look for the single start node of the page it points to. */
  datatype Fallback = NoFallback | StartNodeOf(content: Option<string>, vs: set<VertexShape>)

  /** How ends are matched: which ends, by which key, against which index of starts, with which fallback. */
  datatype Lookup = Lookup(endMark: Mark, endKey: VertexShape -> string, starts: map<string, VertexShape>, fallback: Fallback)

  /**
   * The vertices an unmatched end may fall back to: on the page the end
   * points to, with the configured start-node master, and with an incoming
   * but no outgoing edge.
   */
  function FallbackTargets(end: VertexShape, content: Option<string>, vs: set<VertexShape>,
                           hasOut: set<VertexShape>, hasIn: set<VertexShape>): set<VertexShape>
  {
    set v | v in vs && Some(v.PageName) == end.PageReference && Candidate(v, Master(content), false, hasOut, hasIn)
  }

  /** A set of one element has no other element. */
  lemma SingletonMember<T>(s: set<T>, a: T, b: T)
    requires |s| == 1 && a in s && b in s
    ensures a == b
  {
    assert |s - {a}| == 0;
    assert b !in s - {a};
  }

  /** Where the end `e` is linked to, if it is linked, in the degree state `hasOut`/`hasIn`. */
  ghost function NextJoin(e: VertexShape, lookup: Lookup, hasOut: set<VertexShape>, hasIn: set<VertexShape>): (r: Option<Join>)
    ensures r.Some? ==> r.value.end == e
  {
    if !Candidate(e, lookup.endMark, false, hasOut, hasIn) then None
    else if lookup.endKey(e) in lookup.starts then Some(Join(e, lookup.starts[lookup.endKey(e)]))
    else if lookup.fallback.StartNodeOf? then
      var targets := FallbackTargets(e, lookup.fallback.content, lookup.fallback.vs, hasOut, hasIn);
      if |targets| == 1 then
        var t :| t in targets;
        Some(Join(e, t))
      else None
    else None
  }

  /** The joins the walk over `ends` makes; each join adds an outgoing edge to its end and an incoming one to its start. */
  ghost function Joins(ends: seq<VertexShape>, lookup: Lookup, hasOut: set<VertexShape>, hasIn: set<VertexShape>): seq<Join>
    decreases |ends|
  {
    if ends == [] then []
    else
      match NextJoin(ends[0], lookup, hasOut, hasIn)
      case None => Joins(ends[1..], lookup, hasOut, hasIn)
      case Some(j) => [j] + Joins(ends[1..], lookup, hasOut + {j.end}, hasIn + {j.start})
  }

  /** Off-page linking: starts keyed by page and reference, ends by reference and page, with the start-node fallback. */
  ghost function OffPageJoins(order: seq<VertexShape>, startContent: Option<string>, vs: set<VertexShape>,
                              hasOut: set<VertexShape>, hasIn: set<VertexShape>): seq<Join>
  {
    var starts := KeyIndex(Candidates.Candidates(order, Referencing, true, hasOut, hasIn), StartKey);
    Joins(order, Lookup(Referencing, EndKey, starts, StartNodeOf(startContent, vs)), hasOut, hasIn)
  }

  /** On-page (checkpoint) linking: starts and ends with the checkpoint master, both keyed by page and text. */
  ghost function OnPageJoins(order: seq<VertexShape>, content: Option<string>,
                             hasOut: set<VertexShape>, hasIn: set<VertexShape>): seq<Join>
  {
    var starts := KeyIndex(Candidates.Candidates(order, Master(content), true, hasOut, hasIn), CheckpointKey);
    Joins(order, Lookup(Master(content), CheckpointKey, starts, NoFallback), hasOut, hasIn)
  }

  /**
   * Every join starts at one of the ends, a candidate end, and leads to the
   * start its key finds, or, when the key finds none, to a fallback target;
   * and it is the join `NextJoin` makes for its end on the degrees the walk
   * has reached by then, which include the initial ones.
   */
  lemma {:induction false} JoinsFromEnds(ends: seq<VertexShape>, lookup: Lookup, hasOut: set<VertexShape>, hasIn: set<VertexShape>)
    ensures forall j | j in Joins(ends, lookup, hasOut, hasIn) ::
      j.end in ends && Marked(j.end, lookup.endMark) &&
      (lookup.endKey(j.end) in lookup.starts ==> j.start == lookup.starts[lookup.endKey(j.end)]) &&
      (lookup.endKey(j.end) !in lookup.starts ==>
         lookup.fallback.StartNodeOf? && j.start in lookup.fallback.vs && Some(j.start.PageName) == j.end.PageReference &&
         j.start.MasterId == lookup.fallback.content) &&
      exists ho: set<VertexShape>, hi: set<VertexShape> | hasOut <= ho && hasIn <= hi :: NextJoin(j.end, lookup, ho, hi) == Some(j)
    decreases |ends|
  {
    if ends != [] {
      var next := NextJoin(ends[0], lookup, hasOut, hasIn);
      var out1, in1 := if next.Some? then hasOut + {next.value.end} else hasOut, if next.Some? then hasIn + {next.value.start} else hasIn;
      JoinsFromEnds(ends[1..], lookup, out1, in1);
      assert Joins(ends, lookup, hasOut, hasIn) ==
        (if next.Some? then [next.value] else []) + Joins(ends[1..], lookup, out1, in1);
      assert forall v | v in ends[1..] :: v in ends;
      forall j | j in Joins(ends[1..], lookup, out1, in1)
        ensures exists ho: set<VertexShape>, hi: set<VertexShape> | hasOut <= ho && hasIn <= hi :: NextJoin(j.end, lookup, ho, hi) == Some(j)
      {
        var ho: set<VertexShape>, hi: set<VertexShape> :| out1 <= ho && in1 <= hi && NextJoin(j.end, lookup, ho, hi) == Some(j);
      }
      if next.Some? {
        assert NextJoin(next.value.end, lookup, hasOut, hasIn) == Some(next.value);
      }
    }
  }

  /** The walk links each end at most once, so no two joins share an end. */
  lemma {:induction false} JoinsDistinctEnds(ends: seq<VertexShape>, lookup: Lookup, hasOut: set<VertexShape>, hasIn: set<VertexShape>)
    requires NoDuplicates(ends)
    ensures EndsDistinct(Joins(ends, lookup, hasOut, hasIn))
    decreases |ends|
  {
    if ends != [] {
      var next := NextJoin(ends[0], lookup, hasOut, hasIn);
      var out1, in1 := if next.Some? then hasOut + {next.value.end} else hasOut, if next.Some? then hasIn + {next.value.start} else hasIn;
      var rest := Joins(ends[1..], lookup, out1, in1);
      JoinsDistinctEnds(ends[1..], lookup, out1, in1);
      JoinsFromEnds(ends[1..], lookup, out1, in1);
      if next.Some? {
        var r := [next.value] + rest;
        assert Joins(ends, lookup, hasOut, hasIn) == r;
        forall a, b | 0 <= a < b < |r| ensures r[a].end != r[b].end {
          if a == 0 {
            assert r[b] == rest[b - 1] && rest[b - 1] in rest;
            assert ends[0] !in ends[1..];
          } else {
            assert r[a] == rest[a - 1] && r[b] == rest[b - 1];
          }
        }
      }
    }
  }

  /** The walk keeps a state where an unvisited end that was a candidate stays one. */
  lemma {:induction false} JoinsCoverMatched(ends: seq<VertexShape>, lookup: Lookup, hasOut: set<VertexShape>, hasIn: set<VertexShape>,
                                             e: VertexShape)
    requires NoDuplicates(ends) && e in ends
    requires Candidate(e, lookup.endMark, false, hasOut, hasIn) && lookup.endKey(e) in lookup.starts
    ensures Join(e, lookup.starts[lookup.endKey(e)]) in Joins(ends, lookup, hasOut, hasIn)
    decreases |ends|
  {
    var next := NextJoin(ends[0], lookup, hasOut, hasIn);
    if e != ends[0] {
      var out1, in1 := if next.Some? then hasOut + {next.value.end} else hasOut, if next.Some? then hasIn + {next.value.start} else hasIn;
      assert e in ends[1..];
      assert NoDuplicates(ends[1..]);
      JoinsCoverMatched(ends[1..], lookup, out1, in1, e);
      assert Joins(ends, lookup, hasOut, hasIn) ==
        (if next.Some? then [next.value] else []) + Joins(ends[1..], lookup, out1, in1);
    }
  }

  /** There are no more joins than ends. */
  lemma {:induction false} JoinsBound(ends: seq<VertexShape>, lookup: Lookup, hasOut: set<VertexShape>, hasIn: set<VertexShape>)
    ensures |Joins(ends, lookup, hasOut, hasIn)| <= |ends|
    decreases |ends|
  {
    if ends != [] {
      var next := NextJoin(ends[0], lookup, hasOut, hasIn);
      var out1, in1 := if next.Some? then hasOut + {next.value.end} else hasOut, if next.Some? then hasIn + {next.value.start} else hasIn;
      JoinsBound(ends[1..], lookup, out1, in1);
    }
  }

  /** The fallback search: the vertices of the graph as it is now that `FallbackTargets` describes. */
  method FallbackTargetsOf(g: Graph, end: VertexShape, content: Option<string>) returns (targets: set<VertexShape>)
    requires g.Valid()
    ensures targets == FallbackTargets(end, content, g.Vertices(), Sources(g.outgoing), Sources(g.incoming))
  {
    targets := {};
    var rest := g.Vertices();
    while rest != {}
      invariant rest <= g.Vertices()
      invariant forall v :: v in targets <==>
        v in g.Vertices() && v !in rest && Some(v.PageName) == end.PageReference &&
        Candidate(v, Master(content), false, Sources(g.outgoing), Sources(g.incoming))
      decreases |rest|
    {
      var v :| v in rest;
      if Some(v.PageName) == end.PageReference {
        var b := IsCandidate(g, v, Master(content), false);
        if b {
          targets := targets + {v};
        }
      }
      rest := rest - {v};
    }
  }

  /** Where the end `e` is to be linked in the graph as it is now, by key or by fallback; `None` when it is not linked. */
  method FindStart(g: Graph, e: VertexShape, lookup: Lookup) returns (start: Option<VertexShape>)
    requires g.Valid()
    requires lookup.fallback.StartNodeOf? ==> lookup.fallback.vs == g.Vertices()
    requires forall k | k in lookup.starts :: lookup.starts[k] in g.Vertices()
    ensures start == match NextJoin(e, lookup, Sources(g.outgoing), Sources(g.incoming))
                     case None => None
                     case Some(j) => Some(j.start)
    ensures start.Some? ==> e in g.Vertices() && start.value in g.Vertices()
  {
    SourcesAreVertices(g);
    var isEnd := IsCandidate(g, e, lookup.endMark, false);
    if !isEnd {
      return None;
    }
    var key := lookup.endKey(e);
    if key in lookup.starts {
      return Some(lookup.starts[key]);
    }
    if !lookup.fallback.StartNodeOf? {
      return None;
    }
    var targets := FallbackTargetsOf(g, e, lookup.fallback.content);
    if |targets| != 1 {
      return None;
    }
    var t :| t in targets;
    ghost var next := NextJoin(e, lookup, Sources(g.outgoing), Sources(g.incoming));
    assert next.Some? && next.value.start in targets;
    SingletonMember(targets, t, next.value.start);
    start := Some(t);
  }

  /** One step of the end walk: link `e` where `NextJoin` says, or leave the graph alone. */
  method LinkEnd(g: Graph, e: VertexShape, lookup: Lookup) returns (ghost added: seq<PageLink>)
    requires g.Valid()
    requires lookup.fallback.StartNodeOf? ==> lookup.fallback.vs == g.Vertices()
    requires forall k | k in lookup.starts :: lookup.starts[k] in g.Vertices()
    modifies g
    ensures g.Valid() && g.Vertices() == old(g.Vertices())
    ensures g.outgoing == LinkedOut(old(g.outgoing), added) && g.incoming == LinkedIn(old(g.incoming), added)
    ensures forall l | l in added :: fresh(l.edge) && ReferenceEdge(l)
    ensures Joined(added) == match NextJoin(e, lookup, Sources(old(g.outgoing)), Sources(old(g.incoming)))
                             case None => []
                             case Some(j) => [j]
    ensures Sources(g.outgoing) == Sources(old(g.outgoing)) + Tails(added)
    ensures Sources(g.incoming) == Sources(old(g.incoming)) + Heads(added)
  {
    added := [];
    ghost var next := NextJoin(e, lookup, Sources(g.outgoing), Sources(g.incoming));
    var start := FindStart(g, e, lookup);
    if start.None? {
      assert next == None;
      return;
    }
    assert next == Some(Join(e, start.value));
    added := LinkJoin(g, e, start.value);
  }

  /** One step of `Joins`, stated over the links that the step placed. */
  lemma JoinsStep(order: seq<VertexShape>, i: int, lookup: Lookup, hasOut: set<VertexShape>, hasIn: set<VertexShape>,
                  added: seq<PageLink>)
    requires 0 <= i < |order|
    requires Joined(added) == match NextJoin(order[i], lookup, hasOut, hasIn)
                              case None => []
                              case Some(j) => [j]
    ensures Joins(order[i..], lookup, hasOut, hasIn) ==
            Joined(added) + Joins(order[i + 1..], lookup, hasOut + Tails(added), hasIn + Heads(added))
  {
    assert order[i..][0] == order[i] && order[i..][1..] == order[i + 1..];
    if added == [] {
      assert hasOut + Tails(added) == hasOut && hasIn + Heads(added) == hasIn;
    } else {
      var j := Join(added[0].src, added[0].dst);
      assert |added| == 1 && Joined(added)[0] == j;
      assert NextJoin(order[i], lookup, hasOut, hasIn) == Some(j);
      assert Tails(added) == {j.end} && Heads(added) == {j.start} by {
        assert added[..|added| - 1] == [];
        assert Tails(added[..|added| - 1]) == {} && Heads(added[..|added| - 1]) == {};
      }
    }
  }

  /** The walk's invariant survives one step: the joins made so far, then the joins still to come, are the whole walk. */
  lemma JoinsAdvance(links: seq<PageLink>, added: seq<PageLink>, order: seq<VertexShape>, i: int, lookup: Lookup,
                     hasOut: set<VertexShape>, hasIn: set<VertexShape>, whole: seq<Join>)
    requires 0 <= i < |order|
    requires Joined(links) + Joins(order[i..], lookup, hasOut, hasIn) == whole
    requires Joined(added) == match NextJoin(order[i], lookup, hasOut, hasIn)
                              case None => []
                              case Some(j) => [j]
    ensures Joined(links + added) + Joins(order[i + 1..], lookup, hasOut + Tails(added), hasIn + Heads(added)) == whole
  {
    JoinsStep(order, i, lookup, hasOut, hasIn, added);
    var a, b, later := Joined(links), Joined(added), Joins(order[i + 1..], lookup, hasOut + Tails(added), hasIn + Heads(added));
    assert Joined(links + added) == a + b;
    assert (a + b) + later == a + (b + later);
  }

  /** Walks the ends in `order` and links each one as `Joins` says. */
  method LinkEnds(g: Graph, order: seq<VertexShape>, lookup: Lookup) returns (ghost links: seq<PageLink>)
    requires g.Valid()
    requires lookup.fallback.StartNodeOf? ==> lookup.fallback.vs == g.Vertices()
    requires forall k | k in lookup.starts :: lookup.starts[k] in g.Vertices()
    modifies g
    ensures g.Valid() && g.Vertices() == old(g.Vertices())
    ensures g.outgoing == LinkedOut(old(g.outgoing), links) && g.incoming == LinkedIn(old(g.incoming), links)
    ensures forall l | l in links :: fresh(l.edge) && ReferenceEdge(l)
    ensures Joined(links) == Joins(order, lookup, Sources(old(g.outgoing)), Sources(old(g.incoming)))
  {
    links := [];
    for i := 0 to |order|
      invariant g.Valid() && g.Vertices() == old(g.Vertices())
      invariant g.outgoing == LinkedOut(old(g.outgoing), links) && g.incoming == LinkedIn(old(g.incoming), links)
      invariant forall l | l in links :: fresh(l.edge) && ReferenceEdge(l)
      invariant Joined(links) + Joins(order[i..], lookup, Sources(g.outgoing), Sources(g.incoming)) ==
                Joins(order, lookup, Sources(old(g.outgoing)), Sources(old(g.incoming)))
    {
      ghost var out0, in0 := Sources(g.outgoing), Sources(g.incoming);
      var added := LinkEnd(g, order[i], lookup);
      LinkedAppend(old(g.outgoing), old(g.incoming), links, added);
      JoinsAdvance(links, added, order, i, lookup, out0, in0, Joins(order, lookup, Sources(old(g.outgoing)), Sources(old(g.incoming))));
      links := links + added;
    }
    assert order[|order|..] == [];
  }

  /** `CreateReferenceEdges`: off-page starts indexed, then every off-page end walked, with the fallback. */
  method CreateReferenceEdges(g: Graph, order: seq<VertexShape>, startContent: Option<string>) returns (ghost links: seq<PageLink>)
    requires g.Valid()
    requires forall v | v in g.Vertices() :: v.PageReference.Some?
    modifies g
    ensures g.Valid() && g.Vertices() == old(g.Vertices())
    ensures g.outgoing == LinkedOut(old(g.outgoing), links) && g.incoming == LinkedIn(old(g.incoming), links)
    ensures forall l | l in links :: fresh(l.edge) && ReferenceEdge(l)
    ensures Joined(links) == OffPageJoins(order, startContent, old(g.Vertices()), Sources(old(g.outgoing)), Sources(old(g.incoming)))
  {
    var starts, startKeys := IndexCandidates(g, order, Referencing, true, StartKey);
    SourcesAreVertices(g);
    links := LinkEnds(g, order, Lookup(Referencing, EndKey, starts, StartNodeOf(startContent, g.Vertices())));
  }

  /** `CreateCheckpointEdges`: checkpoint starts indexed by page and text, then every checkpoint end walked. */
  method CreateCheckpointEdges(g: Graph, order: seq<VertexShape>, content: Option<string>) returns (ghost links: seq<PageLink>)
    requires g.Valid()
    modifies g
    ensures g.Valid() && g.Vertices() == old(g.Vertices())
    ensures g.outgoing == LinkedOut(old(g.outgoing), links) && g.incoming == LinkedIn(old(g.incoming), links)
    ensures forall l | l in links :: fresh(l.edge) && ReferenceEdge(l)
    ensures Joined(links) == OnPageJoins(order, content, Sources(old(g.outgoing)), Sources(old(g.incoming)))
  {
    var starts, startKeys := IndexCandidates(g, order, Master(content), true, CheckpointKey);
    SourcesAreVertices(g);
    links := LinkEnds(g, order, Lookup(Master(content), CheckpointKey, starts, NoFallback));
  }

  /**
   * `ConnectReferenceShapes`: the second character of the node option picks
   * off-page linking ('1'), checkpoint linking ('2'), both in that order
   * ('3'), or nothing. Every filter walks one snapshot `order` of the
   * vertices, so in mode '3' the checkpoint candidates are judged on the
   * degrees the off-page links have already changed.
   */
  method ConnectReferenceShapes(g: Graph, nodeOption: string, checkpointContent: Option<string>, startContent: Option<string>)
    returns (order: seq<VertexShape>, ghost offPage: seq<PageLink>, ghost onPage: seq<PageLink>)
    requires g.Valid() && |nodeOption| >= 2
    requires nodeOption[1] == '1' || nodeOption[1] == '3' ==> forall v | v in g.Vertices() :: v.PageReference.Some?
    modifies g
    ensures g.Valid() && g.Vertices() == old(g.Vertices())
    ensures NoDuplicates(order) && (set v | v in order) == old(g.Vertices())
    ensures g.outgoing == LinkedOut(old(g.outgoing), offPage + onPage) && g.incoming == LinkedIn(old(g.incoming), offPage + onPage)
    ensures forall l | l in offPage + onPage :: fresh(l.edge) && ReferenceEdge(l)
    ensures Joined(offPage) ==
      if nodeOption[1] == '1' || nodeOption[1] == '3'
      then OffPageJoins(order, startContent, old(g.Vertices()), Sources(old(g.outgoing)), Sources(old(g.incoming)))
      else []
    ensures Joined(onPage) ==
      if nodeOption[1] == '2' || nodeOption[1] == '3'
      then OnPageJoins(order, checkpointContent, Sources(old(g.outgoing)) + Tails(offPage), Sources(old(g.incoming)) + Heads(offPage))
      else []
  {
    order := Enumerate(g.Vertices());
    offPage, onPage := [], [];
    var mode := nodeOption[1];
    if mode == '1' || mode == '3' {
      offPage := CreateReferenceEdges(g, order, startContent);
    }
    LinkedSources(old(g.outgoing), old(g.incoming), offPage);
    if mode == '2' || mode == '3' {
      ghost var mid, midIn := g.outgoing, g.incoming;
      onPage := CreateCheckpointEdges(g, order, checkpointContent);
      LinkedAppend(old(g.outgoing), old(g.incoming), offPage, onPage);
    } else {
      assert offPage + onPage == offPage;
    }
  }
}
