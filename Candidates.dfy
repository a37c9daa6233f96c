/**
 * What reference linking of both generations shares: which vertices are
 * candidate start or end references, how candidates are indexed by a string
 * key, and how one synthetic `end -> start` edge is added.
 *
 * Degree tests are read from two sets: `hasOut`, the vertices with an
 * outgoing edge, and `hasIn`, those with an incoming edge. On a valid graph
 * these are `Sources(outgoing)` and `Sources(incoming)`, and a vertex is in
 * them exactly when its out-degree, or in-degree, is above zero.
 */
module Candidates {
  import opened Basics
  import opened Shapes
  import opened MultiGraph
  import opened GraphLinks
  import opened PageGraph

  /** What marks a vertex as a reference of the kind being linked. */
  datatype Mark =
    | Referencing                                                   // a non-null, non-empty `PageReference`
    | Master(content: Option<string>)                               // `MasterId` equal to a configured value
    | TitledMaster(content: Option<string>, pageNames: set<string>) // that, and `Text` containing "<page name>: "
    | Texted(content: Option<string>)                               // `Text` equal to a configured value
    | Unmarked                                                      // any vertex

  predicate Marked(v: VertexShape, mark: Mark)
  {
    match mark
    case Referencing => v.PageReference.Some? && v.PageReference.value != ""
    case Master(c) => v.MasterId == c
    case TitledMaster(c, names) => v.MasterId == c && exists p | p in names :: Contains(v.Text, p + ": ")
    case Texted(c) => c == Some(v.Text)
    case Unmarked => true
  }

  /** A start reference has no incoming edge and some outgoing edge. */
  predicate Opens(v: VertexShape, hasOut: set<VertexShape>, hasIn: set<VertexShape>)
  {
    v in hasOut && v !in hasIn
  }

  /** An end reference has no outgoing edge and some incoming edge. */
  predicate Closes(v: VertexShape, hasOut: set<VertexShape>, hasIn: set<VertexShape>)
  {
    v !in hasOut && v in hasIn
  }

  /** The candidate filter: marked, and opening (a start) or closing (an end). */
  predicate Candidate(v: VertexShape, mark: Mark, opening: bool, hasOut: set<VertexShape>, hasIn: set<VertexShape>)
  {
    Marked(v, mark) && if opening then Opens(v, hasOut, hasIn) else Closes(v, hasOut, hasIn)
  }

  /** A start and an end never pass the same degree test. */
  lemma OpeningIsNotClosing(v: VertexShape, hasOut: set<VertexShape>, hasIn: set<VertexShape>)
    ensures !(Opens(v, hasOut, hasIn) && Closes(v, hasOut, hasIn))
  {
  }

  /** The candidates of `order`, in order: what a lazy `Where` over the vertex snapshot yields. */
  function Candidates(order: seq<VertexShape>, mark: Mark, opening: bool, hasOut: set<VertexShape>, hasIn: set<VertexShape>)
    : (r: seq<VertexShape>)
    ensures forall v | v in r :: v in order && Candidate(v, mark, opening, hasOut, hasIn)
    ensures forall v | v in order && Candidate(v, mark, opening, hasOut, hasIn) :: v in r
    ensures NoDuplicates(order) ==> NoDuplicates(r)
    decreases |order|
  {
    if order == [] then []
    else
      var p := Candidates(order[..|order| - 1], mark, opening, hasOut, hasIn);
      var v := order[|order| - 1];
      assert NoDuplicates(order) ==> NoDuplicates(order[..|order| - 1]);
      if Candidate(v, mark, opening, hasOut, hasIn) then p + [v] else p
  }

  lemma CandidatesSnoc(order: seq<VertexShape>, i: nat, mark: Mark, opening: bool, hasOut: set<VertexShape>, hasIn: set<VertexShape>)
    requires i < |order|
    ensures Candidates(order[..i + 1], mark, opening, hasOut, hasIn) ==
      if Candidate(order[i], mark, opening, hasOut, hasIn) then Candidates(order[..i], mark, opening, hasOut, hasIn) + [order[i]]
      else Candidates(order[..i], mark, opening, hasOut, hasIn)
  {
    assert order[..i + 1][..i] == order[..i];
  }

  /** A possibly null string as string interpolation shows it: null as "". */
  function Shown(s: Option<string>): string
  {
    if s.Some? then s.value else ""
  }

  /** A start reference's key: its page, then the page it points to. */
  function StartKey(v: VertexShape): string
  {
    v.PageName + "_" + Shown(v.PageReference)
  }

  /** An end reference's key: the page it points to, then its page, so that it meets the start pointing back. */
  function EndKey(v: VertexShape): string
  {
    Shown(v.PageReference) + "_" + v.PageName
  }

  /** An on-page reference's key: its page and its text. */
  function CheckpointKey(v: VertexShape): string
  {
    v.PageName + "_" + v.Text
  }

  /** Where the first "_" of `s` is, or `|s|` when there is none. */
  function FirstSeparator(s: string): (r: nat)
    ensures r <= |s| && (r < |s| ==> s[r] == '_') && forall k | 0 <= k < r :: s[k] != '_'
  {
    if s == [] || s[0] == '_' then 0 else 1 + FirstSeparator(s[1..])
  }

  /** In `a + "_" + b` with no "_" in `a`, the first separator sits right after `a`. */
  lemma {:induction false} SeparatorAfterFirstPart(a: string, b: string)
    requires '_' !in a
    ensures FirstSeparator(a + "_" + b) == |a|
    decreases |a|
  {
    if a != [] {
      assert (a + "_" + b)[0] == a[0] && a[0] in a;
      assert (a + "_" + b)[1..] == a[1..] + "_" + b;
      SeparatorAfterFirstPart(a[1..], b);
    }
  }

  /** Keys joined with "_" identify their parts when the first part holds no "_". */
  lemma JoinedKeyParts(a: string, b: string, c: string, d: string)
    requires '_' !in a && '_' !in c
    ensures a + "_" + b == c + "_" + d <==> a == c && b == d
  {
    var key := a + "_" + b;
    if key == c + "_" + d {
      SeparatorAfterFirstPart(a, b);
      SeparatorAfterFirstPart(c, d);
      assert a == key[..|a|] && c == (c + "_" + d)[..|c|];
      assert b == key[|a| + 1..] && d == (c + "_" + d)[|c| + 1..];
    }
  }

  /** Without that condition keys collide: a start on page "A_B" pointing to "C" and one on page "A" pointing to "B_C". */
  lemma KeysCollide()
    ensures "A_B" + "_" + "C" == "A" + "_" + "B_C"
  {
  }

  /** Candidates indexed by `key`; of several with the same key, the last one stays. */
  function KeyIndex(s: seq<VertexShape>, key: VertexShape -> string): (r: map<string, VertexShape>)
    ensures forall k | k in r :: r[k] in s && key(r[k]) == k
    ensures forall v | v in s :: key(v) in r
    decreases |s|
  {
    if s == [] then map[] else KeyIndex(s[..|s| - 1], key)[key(s[|s| - 1]) := s[|s| - 1]]
  }

  lemma KeyIndexSnoc(s: seq<VertexShape>, v: VertexShape, key: VertexShape -> string)
    ensures KeyIndex(s + [v], key) == KeyIndex(s, key)[key(v) := v]
  {
    assert (s + [v])[..|s|] == s;
  }

  /** The keys of `KeyIndex(s, key)` in the order a dictionary enumerates them: by first insertion. */
  function KeyOrder(s: seq<VertexShape>, key: VertexShape -> string): (r: seq<string>)
    ensures NoDuplicates(r)
    ensures forall k :: k in r <==> k in KeyIndex(s, key)
    decreases |s|
  {
    if s == [] then []
    else
      var p := KeyOrder(s[..|s| - 1], key);
      var k := key(s[|s| - 1]);
      if k in p then p else p + [k]
  }

  lemma KeyOrderSnoc(s: seq<VertexShape>, v: VertexShape, key: VertexShape -> string)
    ensures KeyOrder(s + [v], key) == if key(v) in KeyOrder(s, key) then KeyOrder(s, key) else KeyOrder(s, key) + [key(v)]
  {
    assert (s + [v])[..|s|] == s;
  }

  /** One insertion into a start (or end) dictionary. */
  lemma IndexStep(s: seq<VertexShape>, v: VertexShape, key: VertexShape -> string, index: map<string, VertexShape>, keys: seq<string>)
    requires index == KeyIndex(s, key) && keys == KeyOrder(s, key)
    ensures KeyIndex(s + [v], key) == index[key(v) := v]
    ensures KeyOrder(s + [v], key) == if key(v) in index then keys else keys + [key(v)]
  {
    KeyIndexSnoc(s, v, key);
    KeyOrderSnoc(s, v, key);
  }

  /** `s[i]` has key `k`, and no later element of `s` has. */
  predicate LastWithKey(s: seq<VertexShape>, key: VertexShape -> string, k: string, i: int)
  {
    0 <= i < |s| && key(s[i]) == k && forall j | i < j < |s| :: key(s[j]) != k
  }

  lemma LastWithKeySnoc(s: seq<VertexShape>, key: VertexShape -> string, k: string, i: int)
    requires s != [] && LastWithKey(s[..|s| - 1], key, k, i) && key(s[|s| - 1]) != k
    ensures LastWithKey(s, key, k, i)
  {
    forall j | i < j < |s| ensures key(s[j]) != k {
      if j < |s| - 1 {
        assert s[j] == s[..|s| - 1][j];
      }
    }
  }

  /** The entry under each key is the last element of `s` with that key. */
  lemma {:induction false} KeyIndexLastWins(s: seq<VertexShape>, key: VertexShape -> string)
    ensures forall k | k in KeyIndex(s, key) :: exists i :: LastWithKey(s, key, k, i) && s[i] == KeyIndex(s, key)[k]
    decreases |s|
  {
    if s != [] {
      var n := |s| - 1;
      var init := s[..n];
      KeyIndexLastWins(init, key);
      var r := KeyIndex(s, key);
      forall k | k in r
        ensures exists i :: LastWithKey(s, key, k, i) && s[i] == r[k]
      {
        if k == key(s[n]) {
          assert LastWithKey(s, key, k, n) && s[n] == r[k];
        } else {
          assert r[k] == KeyIndex(init, key)[k];
          var i :| LastWithKey(init, key, k, i) && init[i] == KeyIndex(init, key)[k];
          LastWithKeySnoc(s, key, k, i);
          assert LastWithKey(s, key, k, i) && s[i] == r[k];
        }
      }
    }
  }

  /** The vertices with an edge are vertices of the graph. */
  lemma SourcesAreVertices(g: Graph)
    requires g.Valid()
    ensures Sources(g.outgoing) <= g.Vertices() && Sources(g.incoming) <= g.Vertices()
  {
    forall v | v in Sources(g.incoming) ensures v in g.Vertices() {
      MirroredPair(g.outgoing, g.incoming, v, v);
    }
  }

  /**
   * The candidate test of the builders, on the graph as it is now: the mark,
   * then the two degree queries, in the order the source evaluates them.
   */
  method IsCandidate(g: Graph, v: VertexShape, mark: Mark, opening: bool) returns (b: bool)
    requires g.Valid()
    ensures b == Candidate(v, mark, opening, Sources(g.outgoing), Sources(g.incoming))
  {
    SourcesAreDegrees(g.outgoing, g.incoming, v);
    if !Marked(v, mark) {
      return false;
    }
    if opening {
      var inDegree := g.GetInDegree(v);
      if inDegree != 0 {
        return false;
      }
      var outDegree := g.GetOutDegree(v);
      b := outDegree > 0;
    } else {
      var outDegree := g.GetOutDegree(v);
      if outDegree != 0 {
        return false;
      }
      var inDegree := g.GetInDegree(v);
      b := inDegree > 0;
    }
  }

  /** The candidates of `order` on the graph as it is now: a `Where` over the vertices, materialised. */
  method FilterCandidates(g: Graph, order: seq<VertexShape>, mark: Mark, opening: bool) returns (r: seq<VertexShape>)
    requires g.Valid()
    ensures r == Candidates(order, mark, opening, Sources(g.outgoing), Sources(g.incoming))
  {
    r := [];
    for i := 0 to |order|
      invariant r == Candidates(order[..i], mark, opening, Sources(g.outgoing), Sources(g.incoming))
    {
      var b := IsCandidate(g, order[i], mark, opening);
      CandidatesSnoc(order, i, mark, opening, Sources(g.outgoing), Sources(g.incoming));
      if b {
        r := r + [order[i]];
      }
    }
    assert order[..|order|] == order;
  }

  /**
   * Fills a start (or end) dictionary: every candidate of `order`, stored
   * under its key; `keys` is the dictionary's key order.
   */
  method IndexCandidates(g: Graph, order: seq<VertexShape>, mark: Mark, opening: bool, key: VertexShape -> string)
    returns (index: map<string, VertexShape>, keys: seq<string>)
    requires g.Valid()
    ensures index == KeyIndex(Candidates(order, mark, opening, Sources(g.outgoing), Sources(g.incoming)), key)
    ensures keys == KeyOrder(Candidates(order, mark, opening, Sources(g.outgoing), Sources(g.incoming)), key)
  {
    index, keys := map[], [];
    ghost var hasOut, hasIn := Sources(g.outgoing), Sources(g.incoming);
    ghost var found := [];
    for i := 0 to |order|
      invariant found == Candidates(order[..i], mark, opening, hasOut, hasIn)
      invariant index == KeyIndex(found, key) && keys == KeyOrder(found, key)
    {
      var v := order[i];
      var b := IsCandidate(g, v, mark, opening);
      CandidatesSnoc(order, i, mark, opening, hasOut, hasIn);
      if b {
        IndexStep(found, v, key, index, keys);
        if key(v) !in index {
          keys := keys + [key(v)];
        }
        index := index[key(v) := v];
        found := found + [v];
      }
    }
    assert order[..|order|] == order;
  }

  /** One link to create, from an end reference to the start it leads on to. */
  datatype Join = Join(end: VertexShape, start: VertexShape)

  /** No two joins share a start. */
  predicate StartsDistinct(js: seq<Join>)
  {
    forall a, b | 0 <= a < b < |js| :: js[a].start != js[b].start
  }

  /** No two joins share an end. */
  predicate EndsDistinct(js: seq<Join>)
  {
    forall a, b | 0 <= a < b < |js| :: js[a].end != js[b].end
  }

  /** The joins the links realise, one per link. */
  function Joined(links: seq<PageLink>): (r: seq<Join>)
    ensures |r| == |links| && forall i | 0 <= i < |links| :: r[i] == Join(links[i].src, links[i].dst)
  {
    seq(|links|, i requires 0 <= i < |links| => Join(links[i].src, links[i].dst))
  }

  lemma JoinedSnoc(links: seq<PageLink>, l: PageLink)
    ensures Joined(links + [l]) == Joined(links) + [Join(l.src, l.dst)]
  {
  }

  /**
   * A synthetic reference edge: text "Reference link", placed from the end
   * reference to the start, while its `ToShape` names the end and its
   * `FromShape` the start, the reverse of its placement.
   */
  predicate ReferenceEdge(l: PageLink)
  {
    l.edge.Text == Some(ReferenceLinkText) && l.edge.ToShape == l.src.Id && l.edge.FromShape == l.dst.Id
  }

  /** Adds one reference edge `end -> start` under a fresh 36-character id, standing for a new GUID. */
  method AddReferenceEdge(g: Graph, end: VertexShape, start: VertexShape) returns (ghost l: PageLink)
    requires g.Valid()
    modifies g
    ensures g.Valid()
    ensures l.src == end && l.dst == start && fresh(l.edge) && ReferenceEdge(l)
    ensures g.outgoing == Placed(old(g.outgoing), end, start, end, start, l.edge)
    ensures g.incoming == Placed(old(g.incoming), end, start, start, end, l.edge)
    ensures Sources(g.outgoing) == Sources(old(g.outgoing)) + {end}
    ensures Sources(g.incoming) == Sources(old(g.incoming)) + {start}
  {
    assert |seq(36, _ => '0')| == 36;
    var guid: string :| |guid| == 36;
    var edge := new EdgeShape(guid, Some(ReferenceLinkText), end.Id, start.Id);
    PlacedSources(g.outgoing, end, start, end, start, edge);
    PlacedSources(g.incoming, end, start, start, end, edge);
    g.Add(end, start, edge);
    l := Link(end, start, edge);
  }

  /** `AddReferenceEdge` for `end -> start`, stated as the one-link walk step it is. */
  method LinkJoin(g: Graph, end: VertexShape, start: VertexShape) returns (ghost added: seq<PageLink>)
    requires g.Valid() && end in g.Vertices() && start in g.Vertices()
    modifies g
    ensures g.Valid() && g.Vertices() == old(g.Vertices())
    ensures g.outgoing == LinkedOut(old(g.outgoing), added) && g.incoming == LinkedIn(old(g.incoming), added)
    ensures forall l | l in added :: fresh(l.edge) && ReferenceEdge(l)
    ensures Joined(added) == [Join(end, start)]
    ensures Sources(g.outgoing) == Sources(old(g.outgoing)) + Tails(added)
    ensures Sources(g.incoming) == Sources(old(g.incoming)) + Heads(added)
  {
    var l := AddReferenceEdge(g, end, start);
    added := [l];
    PlacedBuckets(old(g.outgoing), end, start, end, start, l.edge);
    LinkedOne(old(g.outgoing), old(g.incoming), l);
  }
}
