/**
 * Reference linking of the older builder (ZipTest `ConnectReferenceShapes`).
 *
 * Off-page references are chosen by master alone and linked by a nested
 * walk: for every end candidate, every start candidate whose page the end
 * points to, and which points back to the end's page, gets an `end -> start`
 * edge. Both candidate filters are lazy over one snapshot of the vertex set,
 * so the start filter is evaluated again for every end: a start that has
 * been linked has an incoming edge and is no longer a start.
 *
 * On-page references (checkpoints) fill two dictionaries keyed by page and
 * text before any edge is added, then link each end key that also names a
 * start.
 */
module LegacyLinking {
  import opened Basics
  import opened Shapes
  import opened MultiGraph
  import opened GraphLinks
  import opened PageGraph
  import opened Candidates

  /** The ends and the starts of some joins. */
  function JoinEnds(js: seq<Join>): set<VertexShape>
  {
    set j | j in js :: j.end
  }

  function JoinStarts(js: seq<Join>): set<VertexShape>
  {
    set j | j in js :: j.start
  }

  /** The vertices that gained an outgoing (incoming) edge are the ends (starts) of the joins the links realise. */
  lemma {:induction false} TailsAreEnds(links: seq<PageLink>)
    ensures Tails(links) == JoinEnds(Joined(links)) && Heads(links) == JoinStarts(Joined(links))
    decreases |links|
  {
    if links != [] {
      var init, l := links[..|links| - 1], links[|links| - 1];
      TailsAreEnds(init);
      assert links == init + [l];
      JoinedSnoc(init, l);
      assert Joined(links) == Joined(init) + [Join(l.src, l.dst)];
      assert JoinEnds(Joined(links)) == JoinEnds(Joined(init)) + {l.src};
      assert JoinStarts(Joined(links)) == JoinStarts(Joined(init)) + {l.dst};
    }
  }

  /** The off-page pairing test: each of the two references points to the other's page. */
  predicate PointsBack(end: VertexShape, start: VertexShape)
  {
    end.PageReference == Some(start.PageName) && start.PageReference == Some(end.PageName)
  }

  /** The inner loop for one end `e`: every start of `starts` that is a candidate when reached and points back. */
  ghost function PairJoins(e: VertexShape, starts: seq<VertexShape>, startMark: Mark,
                           hasOut: set<VertexShape>, hasIn: set<VertexShape>): seq<Join>
    decreases |starts|
  {
    if starts == [] then []
    else if Candidate(starts[0], startMark, true, hasOut, hasIn) && PointsBack(e, starts[0])
    then [Join(e, starts[0])] + PairJoins(e, starts[1..], startMark, hasOut + {e}, hasIn + {starts[0]})
    else PairJoins(e, starts[1..], startMark, hasOut, hasIn)
  }

  /** The outer loop: every end of `ends` that is a candidate when reached runs the inner loop over `starts`. */
  ghost function NestedJoins(ends: seq<VertexShape>, starts: seq<VertexShape>, endMark: Mark, startMark: Mark,
                             hasOut: set<VertexShape>, hasIn: set<VertexShape>): seq<Join>
    decreases |ends|
  {
    if ends == [] then []
    else if Candidate(ends[0], endMark, false, hasOut, hasIn) then
      var inner := PairJoins(ends[0], starts, startMark, hasOut, hasIn);
      inner + NestedJoins(ends[1..], starts, endMark, startMark, hasOut + JoinEnds(inner), hasIn + JoinStarts(inner))
    else NestedJoins(ends[1..], starts, endMark, startMark, hasOut, hasIn)
  }

  /** The inner loop links only `e`, to starts of `starts` that were candidates when reached and point back. */
  lemma {:induction false} PairJoinsSound(e: VertexShape, starts: seq<VertexShape>, startMark: Mark,
                                          hasOut: set<VertexShape>, hasIn: set<VertexShape>)
    ensures forall j | j in PairJoins(e, starts, startMark, hasOut, hasIn) ::
      j.end == e && j.start in starts && j.start !in hasIn && Marked(j.start, startMark) && PointsBack(e, j.start)
    ensures JoinEnds(PairJoins(e, starts, startMark, hasOut, hasIn)) <= {e}
    decreases |starts|
  {
    if starts != [] {
      var s := starts[0];
      assert forall v | v in starts[1..] :: v in starts;
      if Candidate(s, startMark, true, hasOut, hasIn) && PointsBack(e, s) {
        PairJoinsSound(e, starts[1..], startMark, hasOut + {e}, hasIn + {s});
      } else {
        PairJoinsSound(e, starts[1..], startMark, hasOut, hasIn);
      }
    }
  }

  /** The inner loop links each start at most once. */
  lemma {:induction false} PairJoinsStartsOnce(e: VertexShape, starts: seq<VertexShape>, startMark: Mark,
                                               hasOut: set<VertexShape>, hasIn: set<VertexShape>)
    ensures StartsDistinct(PairJoins(e, starts, startMark, hasOut, hasIn))
    decreases |starts|
  {
    if starts != [] {
      var s := starts[0];
      if Candidate(s, startMark, true, hasOut, hasIn) && PointsBack(e, s) {
        var rest := PairJoins(e, starts[1..], startMark, hasOut + {e}, hasIn + {s});
        PairJoinsStartsOnce(e, starts[1..], startMark, hasOut + {e}, hasIn + {s});
        PairJoinsSound(e, starts[1..], startMark, hasOut + {e}, hasIn + {s});
        var js := [Join(e, s)] + rest;
        assert js == PairJoins(e, starts, startMark, hasOut, hasIn);
        forall a, b | 0 <= a < b < |js| ensures js[a].start != js[b].start {
          assert js[b] == rest[b - 1] && rest[b - 1] in rest;
          if a > 0 {
            assert js[a] == rest[a - 1];
          }
        }
      } else {
        PairJoinsStartsOnce(e, starts[1..], startMark, hasOut, hasIn);
        assert PairJoins(e, starts, startMark, hasOut, hasIn) == PairJoins(e, starts[1..], startMark, hasOut, hasIn);
      }
    }
  }

  /** A start candidate that points back to `e`'s page is linked to `e` by the inner loop. */
  lemma {:induction false} PairJoinsComplete(e: VertexShape, starts: seq<VertexShape>, startMark: Mark,
                                             hasOut: set<VertexShape>, hasIn: set<VertexShape>, s: VertexShape)
    requires s in starts && Candidate(s, startMark, true, hasOut, hasIn) && PointsBack(e, s)
    ensures s in JoinStarts(PairJoins(e, starts, startMark, hasOut, hasIn))
    decreases |starts|
  {
    var first := starts[0];
    if first == s {
      assert Join(e, s) in PairJoins(e, starts, startMark, hasOut, hasIn);
    } else {
      assert s in starts[1..];
      if Candidate(first, startMark, true, hasOut, hasIn) && PointsBack(e, first) {
        PairJoinsComplete(e, starts[1..], startMark, hasOut + {e}, hasIn + {first}, s);
      } else {
        PairJoinsComplete(e, starts[1..], startMark, hasOut, hasIn, s);
      }
    }
  }

  /**
   * Off-page linking joins a candidate end of `ends` to a candidate start of
   * `starts` that points back, the start not yet linked at that point; so no
   * start is linked twice, while one end may be linked to several starts.
   */
  lemma {:induction false} NestedJoinsSound(ends: seq<VertexShape>, starts: seq<VertexShape>, endMark: Mark, startMark: Mark,
                                            hasOut: set<VertexShape>, hasIn: set<VertexShape>)
    ensures forall j | j in NestedJoins(ends, starts, endMark, startMark, hasOut, hasIn) ::
      j.end in ends && j.start in starts && j.start !in hasIn &&
      Marked(j.end, endMark) && Marked(j.start, startMark) && PointsBack(j.end, j.start)
    ensures StartsDistinct(NestedJoins(ends, starts, endMark, startMark, hasOut, hasIn))
    decreases |ends|
  {
    if ends != [] {
      var e := ends[0];
      assert forall v | v in ends[1..] :: v in ends;
      if Candidate(e, endMark, false, hasOut, hasIn) {
        var inner := PairJoins(e, starts, startMark, hasOut, hasIn);
        var out1, in1 := hasOut + JoinEnds(inner), hasIn + JoinStarts(inner);
        var rest := NestedJoins(ends[1..], starts, endMark, startMark, out1, in1);
        PairJoinsSound(e, starts, startMark, hasOut, hasIn);
        PairJoinsStartsOnce(e, starts, startMark, hasOut, hasIn);
        NestedJoinsSound(ends[1..], starts, endMark, startMark, out1, in1);
        var js := inner + rest;
        assert js == NestedJoins(ends, starts, endMark, startMark, hasOut, hasIn);
        forall a, b | 0 <= a < b < |js| ensures js[a].start != js[b].start {
          if b < |inner| {
            assert js[a] == inner[a] && js[b] == inner[b];
          } else if a < |inner| {
            assert js[a] == inner[a] && js[a].start in JoinStarts(inner) && js[a].start in in1;
            assert js[b] == rest[b - |inner|] && rest[b - |inner|] in rest && js[b].start !in in1;
          } else {
            assert js[a] == rest[a - |inner|] && js[b] == rest[b - |inner|];
          }
        }
      } else {
        NestedJoinsSound(ends[1..], starts, endMark, startMark, hasOut, hasIn);
        assert NestedJoins(ends, starts, endMark, startMark, hasOut, hasIn) == NestedJoins(ends[1..], starts, endMark, startMark, hasOut, hasIn);
      }
    }
  }

  /**
   * Every start candidate of `starts` that some end candidate of `ends`
   * points back to is linked, to the first such end reached.
   */
  lemma {:induction false} NestedJoinsComplete(ends: seq<VertexShape>, starts: seq<VertexShape>, endMark: Mark, startMark: Mark,
                                               hasOut: set<VertexShape>, hasIn: set<VertexShape>, e: VertexShape, s: VertexShape)
    requires e in ends && Candidate(e, endMark, false, hasOut, hasIn)
    requires s in starts && Candidate(s, startMark, true, hasOut, hasIn) && PointsBack(e, s)
    ensures s in JoinStarts(NestedJoins(ends, starts, endMark, startMark, hasOut, hasIn))
    decreases |ends|
  {
    var first := ends[0];
    var js := NestedJoins(ends, starts, endMark, startMark, hasOut, hasIn);
    if Candidate(first, endMark, false, hasOut, hasIn) {
      var inner := PairJoins(first, starts, startMark, hasOut, hasIn);
      var rest := NestedJoins(ends[1..], starts, endMark, startMark, hasOut + JoinEnds(inner), hasIn + JoinStarts(inner));
      assert js == inner + rest;
      if first == e {
        PairJoinsComplete(e, starts, startMark, hasOut, hasIn, s);
      } else if s !in JoinStarts(inner) {
        PairJoinsSound(first, starts, startMark, hasOut, hasIn);
        assert e in ends[1..];
        NestedJoinsComplete(ends[1..], starts, endMark, startMark, hasOut + JoinEnds(inner), hasIn + JoinStarts(inner), e, s);
      }
    } else {
      assert e in ends[1..];
      NestedJoinsComplete(ends[1..], starts, endMark, startMark, hasOut, hasIn, e, s);
    }
  }

  /** One step of the inner loop: link `e` to `s` when `s` is a start candidate now and points back. */
  method LinkPair(g: Graph, e: VertexShape, s: VertexShape, startMark: Mark) returns (ghost added: seq<PageLink>)
    requires g.Valid() && e in g.Vertices() && s in g.Vertices()
    modifies g
    ensures g.Valid() && g.Vertices() == old(g.Vertices())
    ensures g.outgoing == LinkedOut(old(g.outgoing), added) && g.incoming == LinkedIn(old(g.incoming), added)
    ensures forall l | l in added :: fresh(l.edge) && ReferenceEdge(l)
    ensures Joined(added) == if Candidate(s, startMark, true, Sources(old(g.outgoing)), Sources(old(g.incoming))) && PointsBack(e, s)
                             then [Join(e, s)] else []
    ensures Sources(g.outgoing) == Sources(old(g.outgoing)) + Tails(added)
    ensures Sources(g.incoming) == Sources(old(g.incoming)) + Heads(added)
  {
    added := [];
    var isStart := IsCandidate(g, s, startMark, true);
    if isStart && e.PageReference == Some(s.PageName) && s.PageReference == Some(e.PageName) {
      added := LinkJoin(g, e, s);
    }
  }

  /** The inner loop's invariant survives one step. */
  lemma PairJoinsAdvance(e: VertexShape, links: seq<PageLink>, added: seq<PageLink>, starts: seq<VertexShape>, k: int,
                         startMark: Mark, hasOut: set<VertexShape>, hasIn: set<VertexShape>, whole: seq<Join>)
    requires 0 <= k < |starts|
    requires Joined(links) + PairJoins(e, starts[k..], startMark, hasOut, hasIn) == whole
    requires Joined(added) == if Candidate(starts[k], startMark, true, hasOut, hasIn) && PointsBack(e, starts[k])
                              then [Join(e, starts[k])] else []
    ensures Joined(links + added) + PairJoins(e, starts[k + 1..], startMark, hasOut + Tails(added), hasIn + Heads(added)) == whole
  {
    assert starts[k..][0] == starts[k] && starts[k..][1..] == starts[k + 1..];
    var a, b := Joined(links), Joined(added);
    var later := PairJoins(e, starts[k + 1..], startMark, hasOut + Tails(added), hasIn + Heads(added));
    if added == [] {
      assert hasOut + Tails(added) == hasOut && hasIn + Heads(added) == hasIn;
    } else {
      assert |added| == 1 && added == [added[0]];
      LinkedOne(map[], map[], added[0]);
      assert b == [Join(added[0].src, added[0].dst)];
    }
    JoinedAppend(links, added);
    ConcatAssociates(a, b, later);
  }

  /** The inner loop of `CreateReferenceEdges` for the end `e`. */
  method LinkStarts(g: Graph, e: VertexShape, order: seq<VertexShape>, startMark: Mark) returns (ghost links: seq<PageLink>)
    requires g.Valid() && e in g.Vertices() && forall v | v in order :: v in g.Vertices()
    modifies g
    ensures g.Valid() && g.Vertices() == old(g.Vertices())
    ensures g.outgoing == LinkedOut(old(g.outgoing), links) && g.incoming == LinkedIn(old(g.incoming), links)
    ensures forall l | l in links :: fresh(l.edge) && ReferenceEdge(l)
    ensures Joined(links) == PairJoins(e, order, startMark, Sources(old(g.outgoing)), Sources(old(g.incoming)))
  {
    links := [];
    for k := 0 to |order|
      invariant g.Valid() && g.Vertices() == old(g.Vertices())
      invariant g.outgoing == LinkedOut(old(g.outgoing), links) && g.incoming == LinkedIn(old(g.incoming), links)
      invariant forall l | l in links :: fresh(l.edge) && ReferenceEdge(l)
      invariant Joined(links) + PairJoins(e, order[k..], startMark, Sources(g.outgoing), Sources(g.incoming)) ==
                PairJoins(e, order, startMark, Sources(old(g.outgoing)), Sources(old(g.incoming)))
    {
      ghost var out0, in0 := Sources(g.outgoing), Sources(g.incoming);
      var added := LinkPair(g, e, order[k], startMark);
      LinkedAppend(old(g.outgoing), old(g.incoming), links, added);
      PairJoinsAdvance(e, links, added, order, k, startMark, out0, in0,
                       PairJoins(e, order, startMark, Sources(old(g.outgoing)), Sources(old(g.incoming))));
      links := links + added;
    }
    assert order[|order|..] == [];
  }

  lemma JoinedAppend(x: seq<PageLink>, y: seq<PageLink>)
    ensures Joined(x + y) == Joined(x) + Joined(y)
  {
  }

  /** `NestedJoins` on the suffix from position `i`, one end unfolded. */
  lemma NestedJoinsUnfold(ends: seq<VertexShape>, i: int, starts: seq<VertexShape>, endMark: Mark, startMark: Mark,
                          hasOut: set<VertexShape>, hasIn: set<VertexShape>)
    requires 0 <= i < |ends|
    ensures NestedJoins(ends[i..], starts, endMark, startMark, hasOut, hasIn) ==
            if Candidate(ends[i], endMark, false, hasOut, hasIn) then
              var inner := PairJoins(ends[i], starts, startMark, hasOut, hasIn);
              inner + NestedJoins(ends[i + 1..], starts, endMark, startMark, hasOut + JoinEnds(inner), hasIn + JoinStarts(inner))
            else NestedJoins(ends[i + 1..], starts, endMark, startMark, hasOut, hasIn)
  {
    assert ends[i..][0] == ends[i] && ends[i..][1..] == ends[i + 1..];
  }

  /** The outer loop's invariant survives one step. */
  lemma NestedJoinsAdvance(links: seq<PageLink>, added: seq<PageLink>, ends: seq<VertexShape>, i: int, starts: seq<VertexShape>,
                           endMark: Mark, startMark: Mark, hasOut: set<VertexShape>, hasIn: set<VertexShape>, whole: seq<Join>)
    requires 0 <= i < |ends|
    requires Joined(links) + NestedJoins(ends[i..], starts, endMark, startMark, hasOut, hasIn) == whole
    requires Joined(added) == if Candidate(ends[i], endMark, false, hasOut, hasIn)
                              then PairJoins(ends[i], starts, startMark, hasOut, hasIn) else []
    ensures Joined(links + added) + NestedJoins(ends[i + 1..], starts, endMark, startMark, hasOut + Tails(added), hasIn + Heads(added)) == whole
  {
    NestedJoinsUnfold(ends, i, starts, endMark, startMark, hasOut, hasIn);
    TailsAreEnds(added);
    var a, b := Joined(links), Joined(added);
    var later := NestedJoins(ends[i + 1..], starts, endMark, startMark, hasOut + Tails(added), hasIn + Heads(added));
    if Candidate(ends[i], endMark, false, hasOut, hasIn) {
      assert NestedJoins(ends[i..], starts, endMark, startMark, hasOut, hasIn) == b + later;
    } else {
      assert added == [];
      assert hasOut + Tails(added) == hasOut && hasIn + Heads(added) == hasIn;
      assert NestedJoins(ends[i..], starts, endMark, startMark, hasOut, hasIn) == b + later;
    }
    JoinedAppend(links, added);
    ConcatAssociates(a, b, later);
  }

  /** One step of the outer loop: the inner loop for `e`, when `e` is an end candidate now. */
  method LinkEnd(g: Graph, e: VertexShape, order: seq<VertexShape>, endMark: Mark, startMark: Mark) returns (ghost added: seq<PageLink>)
    requires g.Valid() && e in g.Vertices() && forall v | v in order :: v in g.Vertices()
    modifies g
    ensures g.Valid() && g.Vertices() == old(g.Vertices())
    ensures g.outgoing == LinkedOut(old(g.outgoing), added) && g.incoming == LinkedIn(old(g.incoming), added)
    ensures forall l | l in added :: fresh(l.edge) && ReferenceEdge(l)
    ensures Joined(added) == if Candidate(e, endMark, false, Sources(old(g.outgoing)), Sources(old(g.incoming)))
                             then PairJoins(e, order, startMark, Sources(old(g.outgoing)), Sources(old(g.incoming))) else []
    ensures Sources(g.outgoing) == Sources(old(g.outgoing)) + Tails(added)
    ensures Sources(g.incoming) == Sources(old(g.incoming)) + Heads(added)
  {
    added := [];
    var isEnd := IsCandidate(g, e, endMark, false);
    if isEnd {
      added := LinkStarts(g, e, order, startMark);
    }
    LinkedSources(old(g.outgoing), old(g.incoming), added);
  }

  /**
   * `CreateReferenceEdges`: for every end candidate of the snapshot `order`,
   * every start candidate of the same snapshot that points back gets an
   * `end -> start` edge.
   */
  method CreateReferenceEdges(g: Graph, order: seq<VertexShape>, endMark: Mark, startMark: Mark) returns (ghost links: seq<PageLink>)
    requires g.Valid() && forall v | v in order :: v in g.Vertices()
    modifies g
    ensures g.Valid() && g.Vertices() == old(g.Vertices())
    ensures g.outgoing == LinkedOut(old(g.outgoing), links) && g.incoming == LinkedIn(old(g.incoming), links)
    ensures forall l | l in links :: fresh(l.edge) && ReferenceEdge(l)
    ensures Joined(links) == NestedJoins(order, order, endMark, startMark, Sources(old(g.outgoing)), Sources(old(g.incoming)))
  {
    links := [];
    for i := 0 to |order|
      invariant g.Valid() && g.Vertices() == old(g.Vertices())
      invariant g.outgoing == LinkedOut(old(g.outgoing), links) && g.incoming == LinkedIn(old(g.incoming), links)
      invariant forall l | l in links :: fresh(l.edge) && ReferenceEdge(l)
      invariant Joined(links) + NestedJoins(order[i..], order, endMark, startMark, Sources(g.outgoing), Sources(g.incoming)) ==
                NestedJoins(order, order, endMark, startMark, Sources(old(g.outgoing)), Sources(old(g.incoming)))
    {
      ghost var out0, in0 := Sources(g.outgoing), Sources(g.incoming);
      var added := LinkEnd(g, order[i], order, endMark, startMark);
      LinkedAppend(old(g.outgoing), old(g.incoming), links, added);
      NestedJoinsAdvance(links, added, order, i, order, endMark, startMark, out0, in0,
                         NestedJoins(order, order, endMark, startMark, Sources(old(g.outgoing)), Sources(old(g.incoming))));
      links := links + added;
    }
    assert order[|order|..] == [];
  }

  /** The end keys of `keys` that also name a start, each joining its end to its start, in key order. */
  function KeyedJoins(keys: seq<string>, ends: map<string, VertexShape>, starts: map<string, VertexShape>): seq<Join>
    decreases |keys|
  {
    if keys == [] then []
    else
      var k := keys[|keys| - 1];
      KeyedJoins(keys[..|keys| - 1], ends, starts) + if k in ends && k in starts then [Join(ends[k], starts[k])] else []
  }

  /**
   * With both dictionaries keyed by `key`, a join is made exactly for each
   * key the two share, its end and start are the entries under that key, and
   * with duplicate-free keys no end and no start is joined twice.
   */
  lemma {:induction false} KeyedJoinsExact(keys: seq<string>, ends: map<string, VertexShape>, starts: map<string, VertexShape>,
                                           key: VertexShape -> string)
    requires forall k | k in ends :: key(ends[k]) == k
    requires forall k | k in starts :: key(starts[k]) == k
    ensures forall j | j in KeyedJoins(keys, ends, starts) ::
      key(j.end) in keys && key(j.end) in ends && key(j.end) in starts && j.end == ends[key(j.end)] && j.start == starts[key(j.end)]
    ensures forall k | k in keys && k in ends && k in starts :: Join(ends[k], starts[k]) in KeyedJoins(keys, ends, starts)
    ensures NoDuplicates(keys) ==> EndsDistinct(KeyedJoins(keys, ends, starts)) && StartsDistinct(KeyedJoins(keys, ends, starts))
    decreases |keys|
  {
    if keys != [] {
      var init, k := keys[..|keys| - 1], keys[|keys| - 1];
      KeyedJoinsExact(init, ends, starts, key);
      assert forall x | x in init :: x in keys;
      assert forall x | x in keys :: x in init || x == k;
      var p := KeyedJoins(init, ends, starts);
      var js := KeyedJoins(keys, ends, starts);
      if NoDuplicates(keys) {
        assert NoDuplicates(init);
        assert k !in init;
        forall a, b | 0 <= a < b < |js| ensures js[a].end != js[b].end && js[a].start != js[b].start {
          if b >= |p| {
            assert js[a] == p[a] && p[a] in p && key(p[a].end) in init && key(p[a].start) in init;
            assert js[b] == Join(ends[k], starts[k]) && key(js[b].end) == k && key(js[b].start) == k;
          } else {
            assert js[a] == p[a] && js[b] == p[b];
          }
        }
      }
    }
  }

  /** What `CreateCheckpointEdges` links: ends and starts indexed by page and text, both on the same state. */
  ghost function CheckpointJoins(order: seq<VertexShape>, mark: Mark, hasOut: set<VertexShape>, hasIn: set<VertexShape>): seq<Join>
  {
    var ends := Candidates.Candidates(order, mark, false, hasOut, hasIn);
    var starts := Candidates.Candidates(order, mark, true, hasOut, hasIn);
    KeyedJoins(KeyOrder(ends, CheckpointKey), KeyIndex(ends, CheckpointKey), KeyIndex(starts, CheckpointKey))
  }

  /** One step of the key walk: join the end under `k` to the start under `k`, if there is one. */
  method LinkKey(g: Graph, k: string, ends: map<string, VertexShape>, starts: map<string, VertexShape>) returns (ghost added: seq<PageLink>)
    requires g.Valid() && k in ends && ends[k] in g.Vertices()
    requires forall x | x in starts :: starts[x] in g.Vertices()
    modifies g
    ensures g.Valid() && g.Vertices() == old(g.Vertices())
    ensures g.outgoing == LinkedOut(old(g.outgoing), added) && g.incoming == LinkedIn(old(g.incoming), added)
    ensures forall l | l in added :: fresh(l.edge) && ReferenceEdge(l)
    ensures Joined(added) == if k in starts then [Join(ends[k], starts[k])] else []
  {
    added := [];
    if k in starts {
      added := LinkJoin(g, ends[k], starts[k]);
    }
  }

  /** The key walk's invariant survives one step. */
  lemma KeyedJoinsAdvance(links: seq<PageLink>, added: seq<PageLink>, keys: seq<string>, i: int,
                          ends: map<string, VertexShape>, starts: map<string, VertexShape>)
    requires 0 <= i < |keys| && keys[i] in ends
    requires Joined(links) == KeyedJoins(keys[..i], ends, starts)
    requires Joined(added) == if keys[i] in starts then [Join(ends[keys[i]], starts[keys[i]])] else []
    ensures Joined(links + added) == KeyedJoins(keys[..i + 1], ends, starts)
  {
    assert keys[..i + 1][..i] == keys[..i] && keys[..i + 1][i] == keys[i];
    assert Joined(links + added) == Joined(links) + Joined(added);
  }

  /** The loop over the end dictionary's keys. */
  method LinkKeys(g: Graph, keys: seq<string>, ends: map<string, VertexShape>, starts: map<string, VertexShape>)
    returns (ghost links: seq<PageLink>)
    requires g.Valid()
    requires forall k | k in keys :: k in ends && ends[k] in g.Vertices()
    requires forall k | k in starts :: starts[k] in g.Vertices()
    modifies g
    ensures g.Valid() && g.Vertices() == old(g.Vertices())
    ensures g.outgoing == LinkedOut(old(g.outgoing), links) && g.incoming == LinkedIn(old(g.incoming), links)
    ensures forall l | l in links :: fresh(l.edge) && ReferenceEdge(l)
    ensures Joined(links) == KeyedJoins(keys, ends, starts)
  {
    links := [];
    for i := 0 to |keys|
      invariant g.Valid() && g.Vertices() == old(g.Vertices())
      invariant g.outgoing == LinkedOut(old(g.outgoing), links) && g.incoming == LinkedIn(old(g.incoming), links)
      invariant forall l | l in links :: fresh(l.edge) && ReferenceEdge(l)
      invariant Joined(links) == KeyedJoins(keys[..i], ends, starts)
    {
      var added := LinkKey(g, keys[i], ends, starts);
      LinkedAppend(old(g.outgoing), old(g.incoming), links, added);
      KeyedJoinsAdvance(links, added, keys, i, ends, starts);
      links := links + added;
    }
    assert keys[..|keys|] == keys;
  }

  /** The entries of a candidate dictionary are vertices of the graph. */
  lemma IndexedAreVertices(g: Graph, order: seq<VertexShape>, mark: Mark, opening: bool, key: VertexShape -> string)
    requires g.Valid()
    ensures var index := KeyIndex(Candidates.Candidates(order, mark, opening, Sources(g.outgoing), Sources(g.incoming)), key);
      forall k | k in index :: index[k] in g.Vertices()
  {
    SourcesAreVertices(g);
  }

  /**
   * `CreateCheckpointEdges`: both dictionaries are filled first, then each end
   * key, in the end dictionary's order, that names a start gets one edge.
   */
  method CreateCheckpointEdges(g: Graph, order: seq<VertexShape>, mark: Mark) returns (ghost links: seq<PageLink>)
    requires g.Valid()
    modifies g
    ensures g.Valid() && g.Vertices() == old(g.Vertices())
    ensures g.outgoing == LinkedOut(old(g.outgoing), links) && g.incoming == LinkedIn(old(g.incoming), links)
    ensures forall l | l in links :: fresh(l.edge) && ReferenceEdge(l)
    ensures Joined(links) == CheckpointJoins(order, mark, Sources(old(g.outgoing)), Sources(old(g.incoming)))
  {
    var starts, startKeys := IndexCandidates(g, order, mark, true, CheckpointKey);
    var ends, endKeys := IndexCandidates(g, order, mark, false, CheckpointKey);
    IndexedAreVertices(g, order, mark, true, CheckpointKey);
    IndexedAreVertices(g, order, mark, false, CheckpointKey);
    links := LinkKeys(g, endKeys, ends, starts);
  }

  /**
   * `ConnectReferenceShapes` of the older builder: the second character of
   * the node option picks off-page linking by master ('1'), checkpoint
   * linking restricted to texts naming a page ("<page>: ...") ('2'), or both
   * ('3'), where the checkpoint filter drops the page-name condition and sees
   * the off-page links already added.
   */
  method ConnectReferenceShapes(g: Graph, pageNames: seq<string>, nodeOption: string,
                                startOffPage: Option<string>, endOffPage: Option<string>, checkpointContent: Option<string>)
    returns (order: seq<VertexShape>, ghost offPage: seq<PageLink>, ghost onPage: seq<PageLink>)
    requires g.Valid() && |nodeOption| >= 2
    modifies g
    ensures g.Valid() && g.Vertices() == old(g.Vertices())
    ensures NoDuplicates(order) && (set v | v in order) == old(g.Vertices())
    ensures g.outgoing == LinkedOut(old(g.outgoing), offPage + onPage) && g.incoming == LinkedIn(old(g.incoming), offPage + onPage)
    ensures forall l | l in offPage + onPage :: fresh(l.edge) && ReferenceEdge(l)
    ensures Joined(offPage) ==
      if nodeOption[1] == '1' || nodeOption[1] == '3'
      then NestedJoins(order, order, Master(endOffPage), Master(startOffPage), Sources(old(g.outgoing)), Sources(old(g.incoming)))
      else []
    ensures Joined(onPage) ==
      if nodeOption[1] == '2'
      then CheckpointJoins(order, TitledMaster(checkpointContent, set p | p in pageNames), Sources(old(g.outgoing)), Sources(old(g.incoming)))
      else if nodeOption[1] == '3'
      then CheckpointJoins(order, Master(checkpointContent), Sources(old(g.outgoing)) + Tails(offPage), Sources(old(g.incoming)) + Heads(offPage))
      else []
  {
    order := Enumerate(g.Vertices());
    offPage, onPage := [], [];
    var mode := nodeOption[1];
    if mode == '1' || mode == '3' {
      offPage := CreateReferenceEdges(g, order, Master(endOffPage), Master(startOffPage));
    }
    LinkedSources(old(g.outgoing), old(g.incoming), offPage);
    if mode == '2' {
      onPage := CreateCheckpointEdges(g, order, TitledMaster(checkpointContent, set p | p in pageNames));
    } else if mode == '3' {
      onPage := CreateCheckpointEdges(g, order, Master(checkpointContent));
    }
    LinkedAppend(old(g.outgoing), old(g.incoming), offPage, onPage);
  }
}
