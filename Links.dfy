/**
 * What a run of `Add` calls does to the two indices of a multigraph. The
 * builders add edges one at a time in loops; their effect is stated as the
 * sequence of links they placed, and the lemmas here say what any such
 * sequence does to buckets, counts, vertices and the mirror invariant.
 */
module GraphLinks {
  import opened MultiGraph

  /** One call `Add(src, dst, edge)`. */
  datatype Link<V, E> = Link(src: V, dst: V, edge: E)

  /** The outgoing index after the links were added in order. */
  function LinkedOut<V, E>(out: map<V, map<V, seq<E>>>, links: seq<Link<V, E>>): map<V, map<V, seq<E>>>
    decreases |links|
  {
    if links == [] then out
    else
      var l := links[|links| - 1];
      Placed(LinkedOut(out, links[..|links| - 1]), l.src, l.dst, l.src, l.dst, l.edge)
  }

  /** The incoming index after the links were added in order. */
  function LinkedIn<V, E>(inc: map<V, map<V, seq<E>>>, links: seq<Link<V, E>>): map<V, map<V, seq<E>>>
    decreases |links|
  {
    if links == [] then inc
    else
      var l := links[|links| - 1];
      Placed(LinkedIn(inc, links[..|links| - 1]), l.src, l.dst, l.dst, l.src, l.edge)
  }

  /** One more `Add` after a run of them. */
  lemma LinkedSnoc<V, E>(out: map<V, map<V, seq<E>>>, inc: map<V, map<V, seq<E>>>, links: seq<Link<V, E>>, l: Link<V, E>)
    ensures LinkedOut(out, links + [l]) == Placed(LinkedOut(out, links), l.src, l.dst, l.src, l.dst, l.edge)
    ensures LinkedIn(inc, links + [l]) == Placed(LinkedIn(inc, links), l.src, l.dst, l.dst, l.src, l.edge)
  {
    assert (links + [l])[..|links|] == links;
  }

  /** The edges of the links from `s` to `d`, in the order they were added. */
  ghost function Between<V, E>(links: seq<Link<V, E>>, s: V, d: V): seq<E>
    decreases |links|
  {
    if links == [] then []
    else
      var l := links[|links| - 1];
      Between(links[..|links| - 1], s, d) + (if l.src == s && l.dst == d then [l.edge] else [])
  }

  /** An edge between `s` and `d` came from a link from `s` to `d`. */
  lemma {:induction false} BetweenFromLinks<V, E>(links: seq<Link<V, E>>, s: V, d: V, e: E)
    ensures e in Between(links, s, d) ==> Link(s, d, e) in links
    decreases |links|
  {
    if links != [] {
      var init := links[..|links| - 1];
      BetweenFromLinks(init, s, d, e);
      if e in Between(init, s, d) {
        assert Link(s, d, e) in init;
        assert init <= links;
      }
    }
  }

  /** The edges of the links, in order. */
  function LinkEdges<V, E>(links: seq<Link<V, E>>): (r: seq<E>)
    ensures |r| == |links| && forall i | 0 <= i < |links| :: r[i] == links[i].edge
  {
    seq(|links|, i requires 0 <= i < |links| => links[i].edge)
  }

  lemma LinkEdgesSnoc<V, E>(links: seq<Link<V, E>>, l: Link<V, E>)
    ensures LinkEdges(links + [l]) == LinkEdges(links) + [l.edge]
  {
    var a, b := LinkEdges(links + [l]), LinkEdges(links) + [l.edge];
    forall i | 0 <= i < |a| ensures a[i] == b[i] {
      if i < |links| {
        assert (links + [l])[i] == links[i];
      }
    }
  }

  /** The edges of non-empty links end with the last link's edge. */
  lemma LinkEdgesInit<V, E>(links: seq<Link<V, E>>)
    requires links != []
    ensures LinkEdges(links) == LinkEdges(links[..|links| - 1]) + [links[|links| - 1].edge]
  {
    var a, b := LinkEdges(links), LinkEdges(links[..|links| - 1]) + [links[|links| - 1].edge];
    forall i | 0 <= i < |a| ensures a[i] == b[i] {
    }
  }

  /** A link placed for the next listed edge extends the edges of the links by that edge. */
  lemma LinkEdgesPrefix<V, E>(links: seq<Link<V, E>>, l: Link<V, E>, edges: seq<E>, i: nat)
    requires i < |edges| && LinkEdges(links) == edges[..i] && l.edge == edges[i]
    ensures LinkEdges(links + [l]) == edges[..i + 1]
  {
    LinkEdgesSnoc(links, l);
    assert edges[..i + 1] == edges[..i] + [edges[i]];
  }

  /** Adding two runs of links one after the other is adding their concatenation. */
  lemma {:induction false} LinkedAppend<V, E>(out: map<V, map<V, seq<E>>>, inc: map<V, map<V, seq<E>>>,
                                              a: seq<Link<V, E>>, b: seq<Link<V, E>>)
    ensures LinkedOut(LinkedOut(out, a), b) == LinkedOut(out, a + b)
    ensures LinkedIn(LinkedIn(inc, a), b) == LinkedIn(inc, a + b)
    decreases |b|
  {
    if b != [] {
      var init := b[..|b| - 1];
      LinkedAppend(out, inc, a, init);
      var l := b[|b| - 1];
      assert (a + b)[..|a + b| - 1] == a + init && (a + b)[|a + b| - 1] == l;
      assert LinkedOut(out, a + b) == Placed(LinkedOut(out, a + init), l.src, l.dst, l.src, l.dst, l.edge);
      assert LinkedIn(inc, a + b) == Placed(LinkedIn(inc, a + init), l.src, l.dst, l.dst, l.src, l.edge);
    } else {
      assert a + b == a;
    }
  }

  /** A single link places its edge in one bucket of each index. */
  lemma LinkedOne<V, E>(out: map<V, map<V, seq<E>>>, inc: map<V, map<V, seq<E>>>, l: Link<V, E>)
    ensures LinkedOut(out, [l]) == Placed(out, l.src, l.dst, l.src, l.dst, l.edge)
    ensures LinkedIn(inc, [l]) == Placed(inc, l.src, l.dst, l.dst, l.src, l.edge)
    ensures Tails([l]) == {l.src} && Heads([l]) == {l.dst}
  {
    assert [l][..0] == [];
  }

  /** Every vertex a link touches. */
  function Endpoints<V, E>(links: seq<Link<V, E>>): set<V>
    decreases |links|
  {
    if links == [] then {} else Endpoints(links[..|links| - 1]) + {links[|links| - 1].src, links[|links| - 1].dst}
  }

  /** Links whose ends all lie in `vs` touch no vertex outside `vs`. */
  lemma {:induction false} EndpointsWithin<V, E>(links: seq<Link<V, E>>, vs: set<V>)
    requires forall l | l in links :: l.src in vs && l.dst in vs
    ensures Endpoints(links) <= vs
    decreases |links|
  {
    if links != [] {
      var init := links[..|links| - 1];
      assert forall l | l in init :: l in links;
      EndpointsWithin(init, vs);
      assert links[|links| - 1] in links;
    }
  }

  /** The sources of the links. */
  function Tails<V, E>(links: seq<Link<V, E>>): set<V>
    decreases |links|
  {
    if links == [] then {} else Tails(links[..|links| - 1]) + {links[|links| - 1].src}
  }

  /** The destinations of the links. */
  function Heads<V, E>(links: seq<Link<V, E>>): set<V>
    decreases |links|
  {
    if links == [] then {} else Heads(links[..|links| - 1]) + {links[|links| - 1].dst}
  }

  /** Vertices whose inner index is not empty: those with a child (outgoing index) or a parent (incoming index). */
  ghost function Sources<V, E>(index: map<V, map<V, seq<E>>>): set<V>
  {
    set v | v in index && index[v] != map[]
  }

  /** Indices that agree outside one bucket agree, bucket by bucket, on every other pair. */
  lemma BucketsAgree<V, E>(a: map<V, map<V, seq<E>>>, b: map<V, map<V, seq<E>>>, s: V, d: V)
    requires SameBucketsExcept(a, b, s, d)
    ensures forall x, y | x != s || y != d :: Bucket(b, x, y) == Bucket(a, x, y)
  {
  }

  /** Adding links appends each link's edge to its own bucket, in order, registers its end points, and changes nothing else. */
  lemma {:induction false} LinkedOutBuckets<V, E>(out: map<V, map<V, seq<E>>>, links: seq<Link<V, E>>)
    ensures LinkedOut(out, links).Keys == out.Keys + Endpoints(links)
    ensures forall s, d :: Bucket(LinkedOut(out, links), s, d) == Bucket(out, s, d) + Between(links, s, d)
    decreases |links|
  {
    if links != [] {
      var init := links[..|links| - 1];
      var l := links[|links| - 1];
      LinkedOutBuckets(out, init);
      var before := LinkedOut(out, init);
      PlacedBuckets(before, l.src, l.dst, l.src, l.dst, l.edge);
      BucketsAgree(before, LinkedOut(out, links), l.src, l.dst);
    }
  }

  /** The same for the incoming index, where the bucket of a link is keyed by its destination. */
  lemma {:induction false} LinkedInBuckets<V, E>(inc: map<V, map<V, seq<E>>>, links: seq<Link<V, E>>)
    ensures LinkedIn(inc, links).Keys == inc.Keys + Endpoints(links)
    ensures forall s, d :: Bucket(LinkedIn(inc, links), d, s) == Bucket(inc, d, s) + Between(links, s, d)
    decreases |links|
  {
    if links != [] {
      var init := links[..|links| - 1];
      var l := links[|links| - 1];
      LinkedInBuckets(inc, init);
      var before := LinkedIn(inc, init);
      PlacedBuckets(before, l.src, l.dst, l.dst, l.src, l.edge);
      BucketsAgree(before, LinkedIn(inc, links), l.dst, l.src);
    }
  }

  /** Every added link is one more edge in each index. */
  lemma {:induction false} LinkedCount<V, E>(out: map<V, map<V, seq<E>>>, inc: map<V, map<V, seq<E>>>, links: seq<Link<V, E>>)
    ensures IndexTotal(LinkedOut(out, links)) == IndexTotal(out) + |links|
    ensures IndexTotal(LinkedIn(inc, links)) == IndexTotal(inc) + |links|
    decreases |links|
  {
    if links != [] {
      var init := links[..|links| - 1];
      var l := links[|links| - 1];
      LinkedCount(out, inc, init);
      PlacedCounts(LinkedOut(out, init), l.src, l.dst, l.src, l.dst, l.edge);
      PlacedCounts(LinkedIn(inc, init), l.src, l.dst, l.dst, l.src, l.edge);
    }
  }

  /** Adding links adds exactly their edges to the outgoing index's entries. */
  lemma {:induction false} LinkedBag<V, E>(out: map<V, map<V, seq<E>>>, links: seq<Link<V, E>>)
    ensures IndexBag(LinkedOut(out, links)) == IndexBag(out) + multiset(LinkEdges(links))
    decreases |links|
  {
    if links != [] {
      var init := links[..|links| - 1];
      var l := links[|links| - 1];
      LinkedBag(out, init);
      PlacedBag(LinkedOut(out, init), l.src, l.dst, l.src, l.dst, l.edge);
      LinkEdgesInit(links);
      var a, b := IndexBag(out), multiset(LinkEdges(init));
      assert multiset(LinkEdges(links)) == b + multiset{l.edge};
      assert a + b + multiset{l.edge} == a + (b + multiset{l.edge});
    }
  }

  /** Adding links keeps the two indices mirrored. */
  lemma {:induction false} LinkedMirrored<V, E>(out: map<V, map<V, seq<E>>>, inc: map<V, map<V, seq<E>>>, links: seq<Link<V, E>>)
    requires Mirrored(out, inc)
    ensures Mirrored(LinkedOut(out, links), LinkedIn(inc, links))
    decreases |links|
  {
    if links != [] {
      var init := links[..|links| - 1];
      var l := links[|links| - 1];
      LinkedMirrored(out, inc, init);
      PlacedMirrored(LinkedOut(out, init), LinkedIn(inc, init), l.src, l.dst, l.edge);
    }
  }

  /** A placed edge gives its owner a non-empty inner index and leaves every other owner's alone. */
  lemma PlacedSources<V, E>(index: map<V, map<V, seq<E>>>, a: V, b: V, s: V, d: V, e: E)
    requires s == a || s == b
    ensures Sources(Placed(index, a, b, s, d, e)) == Sources(index) + {s}
  {
    var r := Placed(index, a, b, s, d, e);
    forall v | v in r && v != s
      ensures (r[v] != map[]) == (v in index && index[v] != map[])
    {
    }
    assert d in r[s];
  }

  /** After adding links, the vertices with a child are the old ones plus every link's source; those with a parent, plus every destination. */
  lemma {:induction false} LinkedSources<V, E>(out: map<V, map<V, seq<E>>>, inc: map<V, map<V, seq<E>>>, links: seq<Link<V, E>>)
    ensures Sources(LinkedOut(out, links)) == Sources(out) + Tails(links)
    ensures Sources(LinkedIn(inc, links)) == Sources(inc) + Heads(links)
    decreases |links|
  {
    if links != [] {
      var init := links[..|links| - 1];
      var l := links[|links| - 1];
      LinkedSources(out, inc, init);
      PlacedSources(LinkedOut(out, init), l.src, l.dst, l.src, l.dst, l.edge);
      PlacedSources(LinkedIn(inc, init), l.src, l.dst, l.dst, l.src, l.edge);
    }
  }

  /** Under the mirror invariant, a known vertex has a child exactly when its out-degree is positive, and a parent exactly when its in-degree is. */
  lemma SourcesAreDegrees<V, E>(out: map<V, map<V, seq<E>>>, inc: map<V, map<V, seq<E>>>, v: V)
    requires Mirrored(out, inc)
    ensures v in Sources(out) <==> Degree(out, v) > 0
    ensures v in Sources(inc) <==> Degree(inc, v) > 0
  {
    if v in out {
      forall k | k in out[v] ensures Len(out[v][k]) > 0 {
      }
      TotalZero(out[v], Len);
    }
    if v in inc {
      forall k | k in inc[v] ensures Len(inc[v][k]) > 0 {
        assert inc[v][k] == out[k][v];
      }
      TotalZero(inc[v], Len);
    }
  }

  /** The index after registering the vertices of `vs` in order (a run of `AddVertex`). */
  function RegisteredAll<V, E>(index: map<V, map<V, seq<E>>>, vs: seq<V>): map<V, map<V, seq<E>>>
    decreases |vs|
  {
    if vs == [] then index else Registered(RegisteredAll(index, vs[..|vs| - 1]), vs[|vs| - 1])
  }

  lemma RegisteredAllSnoc<V, E>(index: map<V, map<V, seq<E>>>, vs: seq<V>, v: V)
    ensures RegisteredAll(index, vs + [v]) == Registered(RegisteredAll(index, vs), v)
  {
    assert (vs + [v])[..|vs|] == vs;
  }

  /** Registering vertices adds them as keys and changes no bucket, count or non-empty inner index. */
  lemma {:induction false} RegisteredAllEffect<V, E>(index: map<V, map<V, seq<E>>>, vs: seq<V>)
    ensures RegisteredAll(index, vs).Keys == index.Keys + set v | v in vs
    ensures forall x, y :: Bucket(RegisteredAll(index, vs), x, y) == Bucket(index, x, y)
    ensures IndexTotal(RegisteredAll(index, vs)) == IndexTotal(index)
    ensures Sources(RegisteredAll(index, vs)) == Sources(index)
    decreases |vs|
  {
    if vs != [] {
      var init := vs[..|vs| - 1];
      RegisteredAllEffect(index, init);
      var before := RegisteredAll(index, init);
      RegisteredBuckets(before, vs[|vs| - 1]);
      RegisteredCounts(before, vs[|vs| - 1]);
      assert vs == init + [vs[|vs| - 1]];
      assert Sources(RegisteredAll(index, vs)) == Sources(before);
    }
  }

  /** Registering vertices adds no entry. */
  lemma {:induction false} RegisteredAllBag<V, E>(index: map<V, map<V, seq<E>>>, vs: seq<V>)
    ensures IndexBag(RegisteredAll(index, vs)) == IndexBag(index)
    decreases |vs|
  {
    if vs != [] {
      RegisteredAllBag(index, vs[..|vs| - 1]);
      RegisteredBag(RegisteredAll(index, vs[..|vs| - 1]), vs[|vs| - 1]);
    }
  }

  /** Registering vertices in both indices keeps them mirrored. */
  lemma {:induction false} RegisteredAllMirrored<V, E>(out: map<V, map<V, seq<E>>>, inc: map<V, map<V, seq<E>>>, vs: seq<V>)
    requires Mirrored(out, inc)
    ensures Mirrored(RegisteredAll(out, vs), RegisteredAll(inc, vs))
    decreases |vs|
  {
    if vs != [] {
      var init := vs[..|vs| - 1];
      RegisteredAllMirrored(out, inc, init);
      var o := RegisteredAll(out, init);
      if vs[|vs| - 1] !in o {
        TransposeRegister(o, vs[|vs| - 1]);
      }
    }
  }
}
