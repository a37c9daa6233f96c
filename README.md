# Call-flow graph and path-coverage engine

This project models the engine behind the Visio call-flow test generator, in
both of its generations: the older `ZipTest.ConsoleHost` and the later
`VisioParse.ConsoleHost`. The engine has four parts.

- **Directed multigraph store** (`MultiGraph`). A class with two nested
  indices, `outgoing[src][dst]` and `incoming[dst][src]`. Each index maps to
  a bucket of edges, so parallel edges are allowed. `Valid()` says the
  indices have the same keys, mirror each other bucket for bucket, and hold
  no empty bucket. Every mutator keeps `Valid()` and states its new state
  exactly. Lemmas then state what changes: buckets, degrees, edge count,
  children and parents.
- **Page graph construction and merging** (`PageGraph`). Connector ends are
  paired into edges. Shapes that are neither connectors nor sub-shapes become
  vertices. Edges are placed between the vertices their end ids name. A page
  graph is copied into the merged graph.
- **Reference linking** of pages into one graph:
  - `Candidates`: what both generations share;
  - `ReferenceLinking`: the later builder;
  - `LegacyLinking`: the older builder.
- **Path enumeration and greedy edge cover**:
  - `PathSearch`: the later stack search with visit budgets, and the
    `OrderBy`-based cover;
  - `LegacyPathSearch`: the older recursive backtracking search, and the
    sort-based cover;
  - `PathCover`: what the two share, namely start and end selection, path
    edges, uncovered counts and cover state.

`Links` describes a run of `Add` calls as a fold over a ghost list of links.
`Ordering` is LINQ's stable `OrderBy`. `Basics` holds `Distinct`, `Trim` and
the enumeration of a set.

Vertices and edges are the classes `Shapes.VertexShape` and
`Shapes.EdgeShape`. Their fields are constant, and equality is object
identity, as in the C# code, where neither type overrides `Equals`. XML is
replaced by abstract records:

- `ShapeRecord`: id, type, master, text, and a `Hyperlink` section that is absent or present with or without a sub-address;
- `ConnectRecord`: `FromSheet`, `FromCell`, `ToSheet`.

The configuration strings are parameters. A `string?` is an
`Option<string>`.

Enumeration order is not modelled as a particular order, because hash sets
and dictionaries leave it open. This applies to `Vertices`, `GetChildren`
and the key order of `Values`. Each method that walks such a collection
picks an order, returns it as `order`, and its result is stated as a
function of that order.

## Model

| member | source | states |
|---|---|---|
| MultiGraph.DirectedMultiGraph.constructor | ZipTest.ConsoleHost/DirectedMultiGraph.cs:14-21 | A new graph is valid and has empty indices |
| MultiGraph.DirectedMultiGraph.GetOutgoingEdgesMap | ZipTest.ConsoleHost/DirectedMultiGraph.cs:42-50 | Returns the inner map of `v`; an unknown `v` is first registered with empty inner maps in both indices |
| MultiGraph.DirectedMultiGraph.GetIncomingEdgesMap | ZipTest.ConsoleHost/DirectedMultiGraph.cs:52-60 | The same for the incoming index |
| MultiGraph.DirectedMultiGraph.Add | ZipTest.ConsoleHost/DirectedMultiGraph.cs:62-81 | Keeps `Valid()`; registers unknown endpoints; appends `e` to `outgoing[s][d]` and `incoming[d][s]` and changes nothing else |
| MultiGraph.PlacedBuckets | ZipTest.ConsoleHost/DirectedMultiGraph.cs:62-81 | After `Add` the keys gain both endpoints, the bucket `s`→`d` is the old one plus `[e]`, and every other bucket is unchanged |
| MultiGraph.PlacedCounts | ZipTest.ConsoleHost/DirectedMultiGraph.cs:62-81 | `Add` raises the owner's degree and the edge total by exactly one and leaves every other degree alone |
| MultiGraph.PlacedBag | ZipTest.ConsoleHost/DirectedMultiGraph.cs:62-81 | `Add` adds exactly its edge to the multiset of the index's entries |
| MultiGraph.PlacedMirrored | ZipTest.ConsoleHost/DirectedMultiGraph.cs:62-81 | Adding to both indices as `Add` does keeps them mirrored |
| MultiGraph.DirectedMultiGraph.AddVertex | ZipTest.ConsoleHost/DirectedMultiGraph.cs:83-90 | Returns true exactly when `v` was absent; installs empty inner maps only then, so a repeat call changes nothing |
| MultiGraph.RegisteredBag | ZipTest.ConsoleHost/DirectedMultiGraph.cs:83-90 | Registering a vertex adds no entry |
| MultiGraph.RegisteredBuckets | ZipTest.ConsoleHost/DirectedMultiGraph.cs:83-90 | Registering a vertex adds exactly that key and changes no existing inner map or bucket |
| MultiGraph.DirectedMultiGraph.RemoveEdges | ZipTest.ConsoleHost/DirectedMultiGraph.cs:92-103 | Returns whether the bucket `s`→`d` existed; if so it is dropped from both indices, otherwise nothing changes |
| MultiGraph.DirectedMultiGraph.RemoveEdge | ZipTest.ConsoleHost/DirectedMultiGraph.cs:105-128 | Returns whether `e` was in the bucket; removes one occurrence from both sides and drops a bucket left empty; keeps `Valid()`, so the one-sided throws cannot happen |
| MultiGraph.RemoveFirst | ZipTest.ConsoleHost/DirectedMultiGraph.cs:114-115 | `IList.Remove`: one occurrence fewer when `e` is present, the bucket unchanged otherwise |
| MultiGraph.RemoveOneCount | ZipTest.ConsoleHost/DirectedMultiGraph.cs:114-125 | Removing `e` lowers the owner's degree and the edge total by one exactly when `e` was in the bucket |
| MultiGraph.WithBucketEffect | ZipTest.ConsoleHost/DirectedMultiGraph.cs:122-125 | Setting or dropping one bucket changes that bucket, its owner's degree and the total by the length difference, and nothing else |
| MultiGraph.WithBucketBag | ZipTest.ConsoleHost/DirectedMultiGraph.cs:122-125 | Setting or dropping one bucket trades that bucket's entries for the new ones and changes no other entry |
| MultiGraph.DirectedMultiGraph.RemoveVertex | ZipTest.ConsoleHost/DirectedMultiGraph.cs:130-141 | Returns false on an absent vertex; otherwise deletes it and every bucket keyed by it, keeping `Valid()` |
| MultiGraph.DropEach | ZipTest.ConsoleHost/DirectedMultiGraph.cs:134-137 | Each of the two `foreach` loops removes `v` from the inner map of every listed neighbour and from no other |
| MultiGraph.RemoveVertexEffect | ZipTest.ConsoleHost/DirectedMultiGraph.cs:134-139 | The two loops plus the key removal are exactly `Detach`: the neighbours listed are known vertices and lose only their entry for `v` |
| MultiGraph.DetachBuckets | ZipTest.ConsoleHost/DirectedMultiGraph.cs:130-141 | After removing `v` the keys lose exactly `v`, no inner map mentions `v`, and every other bucket is unchanged |
| MultiGraph.TransposeDetach | ZipTest.ConsoleHost/DirectedMultiGraph.cs:130-141 | Removing a vertex from the outgoing index removes it from its transpose, so the indices stay mirrored |
| MultiGraph.DirectedMultiGraph.RemoveVertices | ZipTest.ConsoleHost/DirectedMultiGraph.cs:143-152 | Removes the listed vertices in turn; returns true exactly when some listed vertex was present |
| MultiGraph.DetachAllEffect | ZipTest.ConsoleHost/DirectedMultiGraph.cs:143-152 | Removing a list of vertices deletes exactly those keys and keeps every bucket between the remaining vertices |
| MultiGraph.DirectedMultiGraph.NumberOfEdges | ZipTest.ConsoleHost/DirectedMultiGraph.cs:155 | The loop's result equals the sum of all outgoing bucket lengths |
| MultiGraph.SumBuckets | ZipTest.ConsoleHost/DirectedMultiGraph.cs:257 | `map.Values.Sum(inner => inner.Count)` equals the summed bucket lengths of one inner map |
| MultiGraph.DirectedMultiGraph.OutgoingEdgesAreIncoming | ZipTest.ConsoleHost/DirectedMultiGraph.cs:167-172 | `GetOutgoingEdges` reads the incoming index, so it yields the buckets ending at `v`, one per parent |
| MultiGraph.DirectedMultiGraph.ChildrenMirrorParents | ZipTest.ConsoleHost/DirectedMultiGraph.cs:181-215 | `d` is a child of `s` iff `s` is a parent of `d`; `IsEdge` iff `d` is a child iff `GetEdges` is non-empty; the bucket is the same read from either index |
| MultiGraph.DirectedMultiGraph.EdgeList | ZipTest.ConsoleHost/DirectedMultiGraph.cs:221 | `Edges` lists exactly the bucket entries, each as often as it was placed (as a multiset), so as many as the edge count and each an edge of the graph |
| MultiGraph.DirectedMultiGraph.EdgeBagIsEdges | ZipTest.ConsoleHost/DirectedMultiGraph.cs:221 | The placed entries number the edge count, and their distinct elements are exactly the edge set |
| MultiGraph.BucketEntries | ZipTest.ConsoleHost/DirectedMultiGraph.cs:221 | Flattening one inner map yields exactly the entries of its buckets, as a multiset, so as many as their summed lengths |
| MultiGraph.DirectedMultiGraph.RemoveZeroDegreeNodes | ZipTest.ConsoleHost/DirectedMultiGraph.cs:225-233 | Deletes from both indices exactly the vertices whose two inner maps are empty |
| MultiGraph.DeleteEach | ZipTest.ConsoleHost/DirectedMultiGraph.cs:228-232 | The deletion loop removes exactly the listed keys from both indices |
| MultiGraph.DirectedMultiGraph.RemovingIsolatedKeepsEdges | ZipTest.ConsoleHost/DirectedMultiGraph.cs:225-233 | After the deletion every remaining vertex has an edge, the other vertices all remain, and every bucket is unchanged |
| MultiGraph.WithoutEmptyTotal | ZipTest.ConsoleHost/DirectedMultiGraph.cs:225-233 | Deleting vertices with empty inner maps deletes no edge |
| MultiGraph.WithoutEmptyBag | ZipTest.ConsoleHost/DirectedMultiGraph.cs:225-233 | Deleting vertices with empty inner maps keeps every entry, with its multiplicity |
| MultiGraph.DirectedMultiGraph.GetInDegree | ZipTest.ConsoleHost/DirectedMultiGraph.cs:254-259 | The summed incoming bucket lengths, 0 for an unknown vertex |
| MultiGraph.DirectedMultiGraph.GetOutDegree | ZipTest.ConsoleHost/DirectedMultiGraph.cs:261-266 | The summed outgoing bucket lengths, 0 for an unknown vertex |
| MultiGraph.DirectedMultiGraph.DegreesAndNeighbours | ZipTest.ConsoleHost/DirectedMultiGraph.cs:254-266 | A degree is 0 iff there are no children (parents), and it is at least their number, since parallel edges collapse in `GetChildren` |
| Basics.Enumerate | ZipTest.ConsoleHost/DirectedMultiGraph.cs:219 | The `Vertices` snapshot lists every vertex exactly once |
| GraphLinks.LinkedOutBuckets | ZipTest.ConsoleHost/DirectedMultiGraph.cs:62-81 | After a run of `Add` calls each bucket is its old contents followed by the edges added between its two vertices, in order, and the keys gain every endpoint |
| GraphLinks.LinkedInBuckets | ZipTest.ConsoleHost/DirectedMultiGraph.cs:62-81 | The same for the incoming index, keyed by destination |
| GraphLinks.LinkedCount | ZipTest.ConsoleHost/DirectedMultiGraph.cs:62-81 | A run of `n` `Add` calls adds exactly `n` edges to each index |
| GraphLinks.LinkedBag | ZipTest.ConsoleHost/DirectedMultiGraph.cs:62-81 | A run of `Add` calls adds exactly the links' edges to the multiset of entries |
| GraphLinks.LinkedMirrored | ZipTest.ConsoleHost/DirectedMultiGraph.cs:62-81 | A run of `Add` calls keeps the indices mirrored |
| GraphLinks.LinkedSources | ZipTest.ConsoleHost/DirectedMultiGraph.cs:62-81 | After the run, the vertices with a child are the old ones plus every link source, and those with a parent are the old ones plus every destination |
| GraphLinks.SourcesAreDegrees | ZipTest.ConsoleHost/DirectedMultiGraph.cs:254-266 | On mirrored indices, a vertex has a child iff its out-degree is positive, and a parent iff its in-degree is positive |
| GraphLinks.RegisteredAllEffect | ZipTest.ConsoleHost/DirectedMultiGraph.cs:83-90 | A run of `AddVertex` adds exactly the listed keys and changes no bucket, count or non-empty inner map |
| GraphLinks.RegisteredAllBag | ZipTest.ConsoleHost/DirectedMultiGraph.cs:83-90 | A run of `AddVertex` adds no entry |
| PageGraph.CellIndex | VisioParse.ConsoleHost/GraphBuilder.cs:61-75 | Every record in the `BeginX` (`EndX`) dictionary is keyed by its own `FromSheet` and has that `FromCell` |
| PageGraph.LastRecordWins | VisioParse.ConsoleHost/GraphBuilder.cs:61-75 | A connector is indexed iff some record of that end names it, and the entry is the last such record; other cells are ignored |
| PageGraph.IndexConnections | VisioParse.ConsoleHost/GraphBuilder.cs:58-75 | The filing loop builds exactly both dictionaries and the `BeginX` key order |
| PageGraph.PairedSheetsExact | VisioParse.ConsoleHost/GraphBuilder.cs:78-100 | A connector is paired iff it has both a `BeginX` and an `EndX` record; none is paired twice |
| PageGraph.FirstShape | VisioParse.ConsoleHost/GraphBuilder.cs:87 | `shapes.First`: the first shape whose id is the connector's |
| PageGraph.MakeEdge | VisioParse.ConsoleHost/GraphBuilder.cs:85-95 | The edge of a paired connector: its id, from the shape its begin is glued to, to the one its end is glued to, with its shape's text |
| PageGraph.MatchConnections | VisioParse.ConsoleHost/GraphBuilder.cs:55-114 | One edge per paired connector, in `BeginX` order, each made from that connector's records; `connectionShapes` is exactly the paired ids |
| PageGraph.VertexRecords | VisioParse.ConsoleHost/GraphBuilder.cs:124-135 | The shapes that become vertices are exactly the page's shapes that are not connectors and carry a `Type` |
| Basics.TrimSlice | VisioParse.ConsoleHost/GraphBuilder.cs:151 | `Trim` is a slice of its input with only white space cut away on either side, and has none at its ends |
| Basics.TrimIdempotent | VisioParse.ConsoleHost/GraphBuilder.cs:151 | Trimming twice is trimming once |
| PageGraph.NewVertex | VisioParse.ConsoleHost/GraphBuilder.cs:137-169 | The vertex made from a shape carries its id, type, master, page name, trimmed text ("" without text) and page reference: "" without a hyperlink section, the sub-address or null (`None`) with one |
| PageGraph.AddShapeVertex | VisioParse.ConsoleHost/GraphBuilder.cs:137-171 | One new vertex describing the shape is registered in both indices |
| PageGraph.ExtractShapeToVertex | VisioParse.ConsoleHost/GraphBuilder.cs:116-191 | Adds one distinct vertex per vertex record, in order, each describing its record, and nothing else |
| PageGraph.DescribedIds | VisioParse.ConsoleHost/GraphBuilder.cs:129-171 | The vertices made carry exactly the ids of their records, one vertex per record |
| PageGraph.Resolvable | VisioParse.ConsoleHost/GraphBuilder.cs:195-208 | Exactly the page edges both of whose end ids name a vertex, the ones `AssignEdges` places |
| PageGraph.AssignEdge | VisioParse.ConsoleHost/GraphBuilder.cs:197-208 | Places the edge between vertices with its two end ids iff both ids resolve; otherwise the graph is unchanged |
| PageGraph.AssignEdges | VisioParse.ConsoleHost/GraphBuilder.cs:193-210 | The graph gains exactly the resolvable edges, in order, each between vertices carrying its end ids; the vertex set is unchanged |
| PageGraph.ResolvableWired | VisioParse.ConsoleHost/GraphBuilder.cs:193-210 | The edges kept correspond one by one, in order, to the paired connectors whose two ends are glued to vertex shapes |
| PageGraph.BuildGraph | VisioParse.ConsoleHost/GraphBuilder.cs:23-53 | The page graph is valid and is `IsPageIndex` for the ghost lists `order` and `edges`: its vertices are one per vertex shape, `order[i]` made from the `i`-th; its entries are exactly `edges` as a multiset, `edges[i]` made from the `i`-th wired connector; each entry is stored between the vertices its end ids name |
| PageGraph.BuiltIndex | VisioParse.ConsoleHost/GraphBuilder.cs:39-50 | Registering the vertices and then placing links whose edges are the resolvable page edges, on an empty graph, gives `IsPageIndex` with exactly the links' edges as its entries |
| PageGraph.PageIndexShape | VisioParse.ConsoleHost/GraphBuilder.cs:23-53 | A page graph has as many vertices as vertex shapes, carrying exactly their ids; as many edges as wired connectors, at most the paired ones; an edge made from every wired connector; each entry stored once; no two entries with the same connector id |
| PageGraph.LegacyBuildGraph | ZipTest.ConsoleHost/GraphBuilder.cs:23-56 | The older builder's page graph is a page index (`IsPageIndex` for `order` and `edges`) with its isolated vertices removed from both indices |
| PageGraph.TrimmedPage | ZipTest.ConsoleHost/GraphBuilder.cs:52-53 | After the zero-degree cleanup the vertices left are the page's minus the isolated ones, each with an edge; the entries are still exactly `edges` as a multiset, so the edge count is kept and every wired connector still has an edge made from it, stored between the vertices its end ids name |
| PageGraph.MergePageGraph | VisioParse.ConsoleHost/GraphBuilder.cs:238-252 | The merged graph gains every page vertex (same object), then one link per page edge entry: the links' edges are exactly the page's bucket entries as a multiset, each placed between page vertices with its end ids |
| PageGraph.CopyVertices | VisioParse.ConsoleHost/GraphBuilder.cs:241 | The first loop registers exactly the page's vertices in the merged graph |
| PageGraph.PlaceEdges | VisioParse.ConsoleHost/GraphBuilder.cs:244-251 | The second loop places the listed edges in list order, the `i`-th link carrying the `i`-th edge, each between page vertices whose ids are its end ids |
| PageGraph.MergedIndex | VisioParse.ConsoleHost/GraphBuilder.cs:238-252 | After a merge the vertices are the old ones plus the page's, the edge total grows by the page's edge count, and each bucket grows by the edges placed between its two vertices |
| Candidates.OpeningIsNotClosing | VisioParse.ConsoleHost/GraphBuilder.cs:266-267 | No vertex passes both the start test (in-degree 0, out-degree > 0) and the end test |
| Candidates.Candidates | VisioParse.ConsoleHost/GraphBuilder.cs:266-267 | The lazy `Where` yields exactly the vertices of the snapshot that pass the filter, each once when the snapshot has no repeats |
| Candidates.IsCandidate | VisioParse.ConsoleHost/GraphBuilder.cs:266 | The mark test plus the two degree queries, on the graph as it is now, decide `Candidate` |
| Candidates.FilterCandidates | VisioParse.ConsoleHost/GraphBuilder.cs:266-267 | Materialising the filter gives `Candidates` over the current degrees |
| Candidates.JoinedKeyParts | VisioParse.ConsoleHost/GraphBuilder.cs:359-365 | Keys joined with "_" determine their parts when the first part has no "_" |
| Candidates.KeysCollide | VisioParse.ConsoleHost/GraphBuilder.cs:359-365 | Without that condition two different (page, reference) pairs give the same key |
| Candidates.KeyIndex | VisioParse.ConsoleHost/GraphBuilder.cs:357-361 | The start dictionary holds every candidate's key, and each entry is a candidate stored under its own key |
| Candidates.KeyIndexLastWins | VisioParse.ConsoleHost/GraphBuilder.cs:357-361 | The entry under each key is the last candidate with that key |
| Candidates.KeyOrder | ZipTest.ConsoleHost/GraphBuilder.cs:360 | The end dictionary's key order lists exactly the dictionary's keys, each once |
| Candidates.IndexCandidates | VisioParse.ConsoleHost/GraphBuilder.cs:354-361 | Filling the dictionary from the lazy filter gives `KeyIndex` (and `KeyOrder`) of the candidates |
| Candidates.AddReferenceEdge | VisioParse.ConsoleHost/GraphBuilder.cs:372-380 | A fresh "Reference link" edge is placed `end → start`, while its `ToShape` names the end and its `FromShape` the start |
| Candidates.LinkJoin | VisioParse.ConsoleHost/GraphBuilder.cs:372-380 | The same, stated as one link of the walk: the end gains a child and the start a parent |
| ReferenceLinking.JoinsFromEnds | VisioParse.ConsoleHost/GraphBuilder.cs:363-403 | Every join starts at a marked end and goes to the start its key finds or, on a miss, to a fallback target on the referenced page with the start-node master; each join is what `NextJoin` gives for its end on some degree state that includes the initial one: a candidate end, a key hit, or the only fallback target that passes the degree test |
| ReferenceLinking.JoinsDistinctEnds | VisioParse.ConsoleHost/GraphBuilder.cs:363-404 | Each end is linked at most once |
| ReferenceLinking.JoinsCoverMatched | VisioParse.ConsoleHost/GraphBuilder.cs:363-381 | An end that stays a candidate and whose key hits is joined to the start stored under that key |
| ReferenceLinking.JoinsBound | VisioParse.ConsoleHost/GraphBuilder.cs:363-404 | There are no more links than ends |
| ReferenceLinking.FallbackTargetsOf | VisioParse.ConsoleHost/GraphBuilder.cs:388 | The fallback query yields the vertices on the referenced page with the start-node master, an incoming edge and no outgoing edge |
| ReferenceLinking.FindStart | VisioParse.ConsoleHost/GraphBuilder.cs:365-391 | The start an end is linked to on the current graph, if any, is a vertex, as the join rule of `JoinsFromEnds` says |
| ReferenceLinking.LinkEnd | VisioParse.ConsoleHost/GraphBuilder.cs:363-403 | One end of the walk adds at most one fresh reference edge, the join for that end, and changes nothing else |
| ReferenceLinking.LinkEnds | VisioParse.ConsoleHost/GraphBuilder.cs:363-404 | The walk over the ends adds exactly the links `Joins` describes, as fresh reference edges |
| ReferenceLinking.CreateReferenceEdges | VisioParse.ConsoleHost/GraphBuilder.cs:343-405 | Off-page linking adds exactly `OffPageJoins`: starts keyed page then reference, ends keyed reference then page, with the fallback; it needs every vertex's page reference to be non-null |
| ReferenceLinking.CreateCheckpointEdges | VisioParse.ConsoleHost/GraphBuilder.cs:295-341 | Checkpoint linking adds exactly `OnPageJoins`: starts and ends with the checkpoint master, keyed by page and text |
| ReferenceLinking.ConnectReferenceShapes | VisioParse.ConsoleHost/GraphBuilder.cs:255-293 | The second mode character selects off-page ('1'), checkpoint ('2'), both ('3', with checkpoint candidates judged after the off-page links) or nothing; the vertex set never changes; modes '1' and '3' need every page reference non-null |
| LegacyLinking.PairJoinsSound | ZipTest.ConsoleHost/GraphBuilder.cs:412-427 | The inner loop links only its end, to listed, marked starts without parents whose reference points back to the end's page |
| LegacyLinking.PairJoinsStartsOnce | ZipTest.ConsoleHost/GraphBuilder.cs:412-427 | The inner loop links each start at most once |
| LegacyLinking.PairJoinsComplete | ZipTest.ConsoleHost/GraphBuilder.cs:412-427 | A start candidate that points back to the end's page is linked to it |
| LegacyLinking.NestedJoinsSound | ZipTest.ConsoleHost/GraphBuilder.cs:407-429 | Every link joins a listed, marked end to a listed, marked start without parents that points back to it; no start is linked twice |
| LegacyLinking.NestedJoinsComplete | ZipTest.ConsoleHost/GraphBuilder.cs:407-429 | A start candidate that some end candidate points back to is linked |
| LegacyLinking.LinkPair | ZipTest.ConsoleHost/GraphBuilder.cs:415-425 | One inner step adds `end → start` exactly when the start is a candidate now and the two point at each other's pages |
| LegacyLinking.LinkStarts | ZipTest.ConsoleHost/GraphBuilder.cs:412-427 | The inner loop adds exactly `PairJoins` |
| LegacyLinking.LinkEnd | ZipTest.ConsoleHost/GraphBuilder.cs:410-428 | One outer step runs the inner loop exactly when the end is a candidate now |
| LegacyLinking.CreateReferenceEdges | ZipTest.ConsoleHost/GraphBuilder.cs:407-429 | The nested loops add exactly `NestedJoins` over the snapshot, as fresh reference edges |
| LegacyLinking.KeyedJoinsExact | ZipTest.ConsoleHost/GraphBuilder.cs:341-384 | A join is made exactly for each key both dictionaries hold, between their entries; no end and no start is joined twice |
| LegacyLinking.LinkKey | ZipTest.ConsoleHost/GraphBuilder.cs:362-378 | One end key gets `end → start` iff the start dictionary has that key |
| LegacyLinking.LinkKeys | ZipTest.ConsoleHost/GraphBuilder.cs:360-384 | The loop over the end keys adds exactly `KeyedJoins` |
| LegacyLinking.CreateCheckpointEdges | ZipTest.ConsoleHost/GraphBuilder.cs:304-385 | Both dictionaries are filled on the same state, then each shared key gets one link |
| LegacyLinking.ConnectReferenceShapes | ZipTest.ConsoleHost/GraphBuilder.cs:256-302 | Mode '1' is off-page by master; '2' is checkpoint with "<page>: " text; '3' is both, without the text condition and after the off-page links; anything else changes nothing |
| PathCover.GetSpecifiedNodes | VisioParse.ConsoleHost/Program.cs:141-161 | The starts and the ends are disjoint, and each is duplicate-free when the enumeration is |
| PathCover.SpecifiedNodesByDegree | VisioParse.ConsoleHost/Program.cs:141-161 | A start passes its content test (by `MasterId`, by `Text` or none) with in-degree 0 and out-degree > 0; an end the reverse; every such vertex is selected |
| PathCover.SimplePathWithin | ZipTest.ConsoleHost/VisioParser.cs:206-231 | A simple path along children lies within the vertices and its start |
| PathCover.EdgesFromPath | VisioParse.ConsoleHost/Program.cs:331-332 | The path's edges are duplicate-free |
| PathCover.EdgesFromPathSteps | VisioParse.ConsoleHost/Program.cs:331-332 | An edge is on a path iff it lies in the bucket of one of the path's steps |
| PathCover.EdgesFromPathAreEdges | VisioParse.ConsoleHost/Program.cs:331-332 | The edges of a path are graph edges |
| PathCover.ShortPathHasNoEdges | VisioParse.ConsoleHost/Program.cs:331-332 | A path of fewer than two vertices has no edges |
| PathCover.CountUncoveredEdges | VisioParse.ConsoleHost/Program.cs:325-327 | The count is the number of the path's distinct edges that are in `unique` and not covered |
| PathCover.CoverGrows | VisioParse.ConsoleHost/Program.cs:304-307 | Choosing a path with a positive count strictly enlarges the covered set |
| PathCover.UncoveringIsNew | VisioParse.ConsoleHost/Program.cs:304-306 | A path with uncovered edges has not been chosen before |
| PathCover.ChosenPathsAreCovered | VisioParse.ConsoleHost/Program.cs:294-313 | A chosen path has nothing left to cover |
| PathCover.CoveredByAreEdges | VisioParse.ConsoleHost/Program.cs:285-314 | The covered edges are graph edges |
| PathCover.CoverStateStep | VisioParse.ConsoleHost/Program.cs:304-308 | A choice keeps the cover state and strictly grows the covered set |
| PathCover.SubsetCard | VisioParse.ConsoleHost/Program.cs:294 | A covered subset of the distinct edges that is at least as large is all of them, so the loop's count test stops exactly at full cover |
| PathSearch.RoomShrinks | VisioParse.ConsoleHost/Program.cs:258-273 | Each counted append under the budget uses up exactly one unit of the remaining room |
| PathSearch.CountAppend | VisioParse.ConsoleHost/Program.cs:261-272 | The count of the neighbour rises by one (an absent entry becomes 1); it joins the visited set on its first count; no count exceeds `|V|/2` |
| PathSearch.OrderedChildren | VisioParse.ConsoleHost/Program.cs:254 | The neighbours are the children, each once, sorted by ascending visit count |
| PathSearch.PushNeighbors | VisioParse.ConsoleHost/Program.cs:256-275 | Pushes, in neighbour order, the path extended by exactly the appendable neighbours, and counts each of them once more; these are distinct one-step extensions by children not on the path, and the budget room falls by the number pushed |
| PathSearch.Eligible | VisioParse.ConsoleHost/Program.cs:256-258 | The neighbours kept are exactly those not on the path whose count before the loop is absent or below the cap, without repeats |
| PathSearch.EligibleSorted | VisioParse.ConsoleHost/Program.cs:254-258 | Keeping the appendable neighbours keeps their ascending visit-count order |
| PathSearch.BumpedCounts | VisioParse.ConsoleHost/Program.cs:261-272 | Counting distinct neighbours raises each one's count by exactly one and leaves every other count unchanged |
| PathSearch.PushTest | VisioParse.ConsoleHost/Program.cs:258 | The test against the counts as the loop updates them decides the same as against the counts before the loop, since the neighbours are distinct |
| PathSearch.SearchStart | VisioParse.ConsoleHost/Program.cs:240-241 | The stack holding `[start]` satisfies the search state |
| PathSearch.PopYield | VisioParse.ConsoleHost/Program.cs:245-251 | Yielding a path that ends at the destination keeps the search state |
| PathSearch.PopExpand | VisioParse.ConsoleHost/Program.cs:252-275 | Popping a path and pushing its extensions keeps the search state: simple walks from `start`, none pushed twice |
| PathSearch.SearchStep | VisioParse.ConsoleHost/Program.cs:243-277 | One turn pops the top path; at `dest` it yields that path and changes no count; otherwise it pushes, after the popped path's removal, its extensions by the appendable children in ascending visit-count order and counts them; it keeps the search state and strictly shrinks the budget room or the stack |
| PathSearch.FindPermutations | VisioParse.ConsoleHost/Program.cs:225-279 | Terminates; yields only simple paths from `start` to `dest` along children, none twice; the counts are created inside the call, so they start fresh for each pair, and every count is between 1 and `|V|/2` with `start` never counted; the shared visited set gains exactly the counted vertices |
| PathSearch.PathsFromStart | VisioParse.ConsoleHost/Program.cs:193-203 | The paths for one start are the per-end results concatenated, each a simple path to its end |
| PathSearch.GetAllPermutations | VisioParse.ConsoleHost/Program.cs:163-221 | The result is the concatenation over start × end, in enumeration order, of each pair's simple paths |
| PathSearch.MaxCount | VisioParse.ConsoleHost/Program.cs:300 | `Max` is the largest count of the list and is attained |
| PathSearch.BestIndex | VisioParse.ConsoleHost/Program.cs:297-301 | The first position with the largest uncovered count |
| Ordering.OrderByIsStableSort | VisioParse.ConsoleHost/Program.cs:254 | `OrderBy` sorts by the key, is a permutation, and keeps equal keys in input order |
| Ordering.FirstMinIndex | VisioParse.ConsoleHost/Program.cs:299-301 | The first position holding the least key |
| Ordering.OrderByFirst | VisioParse.ConsoleHost/Program.cs:299-301 | The head of a stable sort is the first element with the least key |
| PathSearch.OrderedFirstIsBest | VisioParse.ConsoleHost/Program.cs:297-301 | The first of the descending stable sort is the first path with the largest count, and its count is `Max` |
| PathSearch.GreedyIsMaximal | VisioParse.ConsoleHost/Program.cs:294-313 | Every greedy choice had the largest uncovered count of its round |
| PathSearch.GetMinimumPaths | VisioParse.ConsoleHost/Program.cs:282-323 | The choices are greedy, distinct, at most `|edges|` in number and taken from the paths; at the end every distinct edge is covered or no path covers a new one |
| LegacyPathSearch.CompletesAtDest | ZipTest.ConsoleHost/VisioParser.cs:211-215 | At the destination, the only completion is the current path |
| LegacyPathSearch.CompletesStep | ZipTest.ConsoleHost/VisioParser.cs:216-226 | Elsewhere, a completion goes on through a child and completes the search entered there |
| LegacyPathSearch.CompletesFromStart | ZipTest.ConsoleHost/VisioParser.cs:197-204 | From an empty path the completions are exactly the simple paths |
| LegacyPathSearch.AllChildrenSeen | ZipTest.ConsoleHost/VisioParser.cs:218-225 | Once every child has been tried, every completion has been found |
| LegacyPathSearch.CollectStep | ZipTest.ConsoleHost/VisioParser.cs:218-225 | One neighbour turn adds exactly the completions through that neighbour, without duplicates |
| LegacyPathSearch.PathCollector.DFS | ZipTest.ConsoleHost/VisioParser.cs:206-231 | Keeps `visited` equal to the vertices of the duplicate-free `currentPath` and restores both; appends every completion of the current path through `currentNode`, each once, and nothing else |
| LegacyPathSearch.PathCollector.VisitChildren | ZipTest.ConsoleHost/VisioParser.cs:218-225 | The neighbour loop appends every completion through the children and restores the state |
| LegacyPathSearch.PathCollector.VisitChild | ZipTest.ConsoleHost/VisioParser.cs:220-224 | A neighbour on the path contributes nothing; otherwise it contributes its completions |
| LegacyPathSearch.FindPermutations | ZipTest.ConsoleHost/VisioParser.cs:197-232 | Yields every simple path from start to end exactly once, and nothing else |
| LegacyPathSearch.PathsFromStart | ZipTest.ConsoleHost/VisioParser.cs:175-180 | The paths for one start, per end: all the simple paths, each once |
| LegacyPathSearch.PathsFromStarts | ZipTest.ConsoleHost/VisioParser.cs:173-181 | The pair loops append all simple paths of every start × end pair, in order |
| LegacyPathSearch.GetAllPermutations | ZipTest.ConsoleHost/VisioParser.cs:147-194 | `numPaths == |allPaths|`, and `allPaths` is the concatenation of all simple paths per start × end pair |
| LegacyPathSearch.AddNew | ZipTest.ConsoleHost/VisioParser.cs:339 | Appending a bucket's new edges to the distinct edges of a prefix gives the distinct edges of the prefix plus the bucket |
| LegacyPathSearch.ExtendDistinct | ZipTest.ConsoleHost/VisioParser.cs:339 | Appending the absent elements one at a time to `Distinct(done)` gives `Distinct(done + xs)` |
| LegacyPathSearch.GetEdgesFromPath | ZipTest.ConsoleHost/VisioParser.cs:329-343 | The loop's result is `Distinct` of the path's step edges |
| Basics.DistinctFirstSeen | ZipTest.ConsoleHost/VisioParser.cs:335-339 | `Distinct` lists the elements in the order of their first occurrences |
| LegacyPathSearch.SortPaths | ZipTest.ConsoleHost/VisioParser.cs:293-298 | The in-place sort leaves a permutation of the paths, ordered by the comparison key (the caller's key is the uncovered count, largest first) |
| LegacyPathSearch.FirstUncovering | ZipTest.ConsoleHost/VisioParser.cs:301 | `FirstOrDefault`: none iff no path has a positive count; otherwise the first that has one |
| LegacyPathSearch.FirstUncoveringIsMaximal | ZipTest.ConsoleHost/VisioParser.cs:293-301 | In the sorted list, the first path with a positive count has the largest count |
| LegacyPathSearch.SelectionIsMaximal | ZipTest.ConsoleHost/VisioParser.cs:293-308 | The path a round takes is a maximal choice among the original paths |
| LegacyPathSearch.NoneUncovering | ZipTest.ConsoleHost/VisioParser.cs:301-313 | When no path of the sorted list has a positive count, none of the original paths has |
| LegacyPathSearch.GetMinimumPaths | ZipTest.ConsoleHost/VisioParser.cs:278-324 | The list stays a permutation; each choice was maximal; choices are distinct and at most `|edges|`; at the end all distinct edges are covered or no path adds one |

## Left out

- XML handling is not modelled: `XDocument` traversal, `xmlDoc.Save`, and `WriteShapeID`'s write-back of ids into shape texts. Shapes and connects are abstract records.
- Console and file output is not modelled: messages, `Print*` routines, `PrintShapeInformation`, the page-info file writes.
- `Main`, the `Stopwatch` timing and the floating-point `proportionVisited` are not part of this model.
- Configuration prompts and CallflowHandler (file choice, zip extraction, directories) are not part of this model. Their outputs are parameters.
- `Guid.NewGuid()` is a fresh `EdgeShape` object with a 36-character id.
- The try/catch of `NullReferenceException` around shape extraction is not modelled.
- ReferenceLinking.ConnectReferenceShapes: modes '1' and '3' require every vertex's `PageReference` to be non-null. A hyperlink section without a `SubAddress` cell gives a null `PageReference` (VisioParse.ConsoleHost/GraphBuilder.cs:163-166). The off-page filters then call `PageReference.Equals("")` on it (VisioParse.ConsoleHost/GraphBuilder.cs:266-267, 281-282) and throw, and `Main`'s catch (VisioParse.ConsoleHost/Program.cs:121-126) ends the run. The model keeps the null as `None` and leaves that input to the precondition; it does not turn the null into a harmless "". Mode '2' and the other modes never read the reference and accept it.
- ReferenceLinking.CreateReferenceEdges: requires every vertex's `PageReference` to be non-null, for the same reason. Its filters test every vertex.
- `yield return` laziness is not modelled. Results are collected sequences. The candidate filters are evaluated lazily, against the graph as it is when the walk reaches each vertex.
- Enumeration order is not fixed. `Vertices`, `GetChildren`, `Edges` and dictionary `Values` are walked in an order the model picks and reports; the results are stated for any order.
- `GetNeighbors`, `IsNeighbor`, `Clear`, `ContainsVertex`, `IsEmpty`, `GetIncomingEdges` (beyond its bucket map), `CalculateNumberOfEdges`, `ConnectedComponents` and `GetObjectData` are not modelled. No core path calls them.
- The unbounded `NumberOfVertices`, degrees and edge counts are `nat`. The 32-bit `int` of the source is not modelled; it cannot overflow for drawings of realistic size.
- `ZipTest.ConsoleHost/VertexShape.cs` lacks `PageName` and `pageReference`. The model takes them from the later `VertexShape`.
- A shape without text gets the empty string as `Text`. The older builder leaves `Text` null instead (ZipTest.ConsoleHost/GraphBuilder.cs:151-156). This matters in three places. First, the mode '2' checkpoint filter calls `Text.Contains` (ZipTest.ConsoleHost/GraphBuilder.cs:280, 284), which throws on a text-less checkpoint; `Main`'s catch (ZipTest.ConsoleHost/VisioParser.cs:108-113) then ends the run, whereas the model treats the vertex as not matching. Second, the text test of `GetSpecifiedNodes` (ZipTest.ConsoleHost/VisioParser.cs:136) is false for a null `Text` against a configured "", where the model says true. Third, the same test is true for a null `Text` against an unset (null) setting, where the model says false.
- The `RemoveZeroDegreeNodes` call in `Main` on the merged graph is not part of this model. The one inside the older `BuildGraph` is modelled.
- PageGraph.ExtractShapeToVertex: does not state that the added vertices are newly allocated. They are distinct and describe their records; freshness is stated for each `AddShapeVertex` call.
- PageGraph.MatchConnections: `shapes.First` must find the connector's shape, which is a precondition; the source would throw.
- LegacyPathSearch.SortPaths: `List.Sort` is unstable and leaves tie order open. This sort is stable, which is one of the orders `List.Sort` may produce. The cover lemmas hold for any sorted permutation.
- LegacyPathSearch.FindPermutations: completeness covers paths within the vertex set and the start, which by `PathCover.SimplePathWithin` is every simple path.
- PathSearch.FindPermutations: states soundness and the budget, not completeness. The `|V|/2` budget prunes paths, so the later search is not complete.
- PathSearch.GetMinimumPaths: requires a non-empty path list when the graph has an edge, because `Max` throws on an empty list.
- MultiGraph.DirectedMultiGraph.RemoveEdge: the two `throw`s are unreachable under `Valid()`, so that branch is `assert false`.
