/**
 * Turning one page of a drawing into a graph, and merging page graphs into
 * one. A connector is a shape too: its two ends are recorded by `Connect`
 * elements (`BeginX` glued to the source shape, `EndX` to the destination),
 * and the pair becomes one edge. Every other shape that has a `Type` becomes
 * a vertex; connector ids and sub-shapes (which have no `Type`) do not.
 * Both generations of the builder share these steps; the older one ends a
 * page by deleting the vertices no edge touches.
 */
module PageGraph {
  import opened Basics
  import opened Shapes
  import opened MultiGraph
  import opened GraphLinks

  type Graph = DirectedMultiGraph<VertexShape, EdgeShape>
  type PageLink = Link<VertexShape, EdgeShape>

  // ---------------------------------------------------------------------
  // Pairing connector ends

  /** The connect records of one end (`BeginX` or `EndX`) by connector id; a later record for a connector replaces an earlier one. */
  function CellIndex(connections: seq<ConnectRecord>, cell: string): (r: map<string, ConnectRecord>)
    ensures forall k | k in r :: r[k].fromSheet == k && r[k].fromCell == cell
    decreases |connections|
  {
    if connections == [] then map[]
    else
      var c := connections[|connections| - 1];
      var m := CellIndex(connections[..|connections| - 1], cell);
      if c.fromCell == cell then m[c.fromSheet := c] else m
  }

  /** The connector ids of the records of one end, in record order, repeats included. */
  function Sheets(connections: seq<ConnectRecord>, cell: string): seq<string>
    decreases |connections|
  {
    if connections == [] then []
    else
      var c := connections[|connections| - 1];
      Sheets(connections[..|connections| - 1], cell) + (if c.fromCell == cell then [c.fromSheet] else [])
  }

  /** One more record read: the index and the id list of its end grow by it, the other end's stay. */
  lemma CellIndexSnoc(connections: seq<ConnectRecord>, i: nat, cell: string)
    requires i < |connections|
    ensures CellIndex(connections[..i + 1], cell) ==
      if connections[i].fromCell == cell then CellIndex(connections[..i], cell)[connections[i].fromSheet := connections[i]]
      else CellIndex(connections[..i], cell)
    ensures Sheets(connections[..i + 1], cell) ==
      Sheets(connections[..i], cell) + if connections[i].fromCell == cell then [connections[i].fromSheet] else []
  {
    assert connections[..i + 1][..i] == connections[..i];
  }

  /** The keys of the `BeginX` dictionary in the order its `Values` are enumerated: first insertion first. */
  function BeginSheets(connections: seq<ConnectRecord>): seq<string>
  {
    Distinct(Sheets(connections, BeginCell))
  }

  /** The connector ids that have both a `BeginX` and an `EndX` record, in `BeginX` order: one edge each. */
  function PairedSheets(connections: seq<ConnectRecord>): seq<string>
  {
    Keep(BeginSheets(connections), CellIndex(connections, EndCell).Keys)
  }

  /**
   * A connector end is indexed exactly when some record of that end names
   * it, and the indexed record is the last such record.
   */
  lemma {:induction false} LastRecordWins(connections: seq<ConnectRecord>, cell: string, k: string)
    ensures k in CellIndex(connections, cell) <==> k in Sheets(connections, cell)
    ensures k in CellIndex(connections, cell) ==> exists i | 0 <= i < |connections| ::
      connections[i] == CellIndex(connections, cell)[k] &&
      forall j | i < j < |connections| :: connections[j].fromCell != cell || connections[j].fromSheet != k
    decreases |connections|
  {
    if connections != [] {
      var n := |connections| - 1;
      var init := connections[..n];
      LastRecordWins(init, cell, k);
      var c := connections[n];
      if c.fromCell == cell && c.fromSheet == k {
        assert connections[n] == CellIndex(connections, cell)[k];
      } else if k in CellIndex(connections, cell) {
        var i :| 0 <= i < |init| && init[i] == CellIndex(init, cell)[k] &&
          forall j | i < j < |init| :: init[j].fromCell != cell || init[j].fromSheet != k;
        assert connections[i] == CellIndex(connections, cell)[k];
      }
    }
  }

  /** A connector id is paired exactly when it has records of both ends; no id is paired twice. */
  lemma PairedSheetsExact(connections: seq<ConnectRecord>, k: string)
    ensures k in PairedSheets(connections) <==>
      k in CellIndex(connections, BeginCell) && k in CellIndex(connections, EndCell)
    ensures NoDuplicates(PairedSheets(connections))
  {
    LastRecordWins(connections, BeginCell, k);
  }

  /** The ids of all shapes of the page. */
  function ShapeIds(shapes: seq<ShapeRecord>): set<string>
  {
    set r | r in shapes :: r.id
  }

  /** `shapes.First(s => s.ID == k)`: the first shape with that id. */
  function FirstShape(shapes: seq<ShapeRecord>, k: string): (r: ShapeRecord)
    requires k in ShapeIds(shapes)
    ensures r.id == k
    ensures exists i | 0 <= i < |shapes| :: shapes[i] == r && forall j | 0 <= j < i :: shapes[j].id != k
  {
    if shapes[0].id == k then shapes[0]
    else
      assert k in ShapeIds(shapes[1..]) by {
        var s :| s in shapes && s.id == k;
        assert s in shapes[1..];
      }
      var r := FirstShape(shapes[1..], k);
      var i :| 0 <= i < |shapes[1..]| && shapes[1..][i] == r && forall j | 0 <= j < i :: shapes[1..][j].id != k;
      assert shapes[i + 1] == r;
      r
  }

  /** The edge a paired connector `k` becomes: source and destination shape ids from its two ends, text from its shape. */
  predicate MadeFrom(e: EdgeShape, k: string, connections: seq<ConnectRecord>, shapes: seq<ShapeRecord>)
  {
    var begins, ends := CellIndex(connections, BeginCell), CellIndex(connections, EndCell);
    k in begins && k in ends && k in ShapeIds(shapes) &&
    e.Id == k && e.FromShape == begins[k].toSheet && e.ToShape == ends[k].toSheet &&
    e.Text == FirstShape(shapes, k).text
  }

  lemma MadeFromSnoc(connections: seq<ConnectRecord>, shapes: seq<ShapeRecord>,
                     edges: seq<EdgeShape>, keys: seq<string>, e: EdgeShape, k: string)
    requires |edges| == |keys|
    requires forall i | 0 <= i < |edges| :: MadeFrom(edges[i], keys[i], connections, shapes)
    requires MadeFrom(e, k, connections, shapes)
    ensures forall i | 0 <= i < |edges| + 1 :: MadeFrom((edges + [e])[i], (keys + [k])[i], connections, shapes)
  {
    forall i | 0 <= i < |edges| + 1
      ensures MadeFrom((edges + [e])[i], (keys + [k])[i], connections, shapes)
    {
      if i < |edges| {
        assert (edges + [e])[i] == edges[i] && (keys + [k])[i] == keys[i];
      }
    }
  }

  /**
   * The first half of `MatchConnections`: files every connect record under
   * its end, keyed by connector id, a later record replacing an earlier one;
   * `beginOrder` is the order in which the `BeginX` dictionary enumerates its
   * values.
   */
  method IndexConnections(connections: seq<ConnectRecord>)
    returns (beginX: map<string, ConnectRecord>, endX: map<string, ConnectRecord>, beginOrder: seq<string>)
    ensures beginX == CellIndex(connections, BeginCell)
    ensures endX == CellIndex(connections, EndCell)
    ensures beginOrder == BeginSheets(connections)
  {
    beginX := map[];
    endX := map[];
    beginOrder := [];
    for i := 0 to |connections|
      invariant beginX == CellIndex(connections[..i], BeginCell)
      invariant endX == CellIndex(connections[..i], EndCell)
      invariant beginOrder == Distinct(Sheets(connections[..i], BeginCell))
    {
      var c := connections[i];
      CellIndexSnoc(connections, i, BeginCell);
      CellIndexSnoc(connections, i, EndCell);
      LastRecordWins(connections[..i], BeginCell, c.fromSheet);
      DistinctSnoc(Sheets(connections[..i], BeginCell), c.fromSheet);
      if c.fromCell != BeginCell {
        assert Sheets(connections[..i + 1], BeginCell) == Sheets(connections[..i], BeginCell);
      }
      if c.fromCell == BeginCell {
        assert Sheets(connections[..i + 1], BeginCell) == Sheets(connections[..i], BeginCell) + [c.fromSheet];
        if c.fromSheet !in beginX {
          assert c.fromSheet !in Sheets(connections[..i], BeginCell);
          beginOrder := beginOrder + [c.fromSheet];
        } else {
          assert c.fromSheet in Sheets(connections[..i], BeginCell);
        }
        beginX := beginX[c.fromSheet := c];
      } else if c.fromCell == EndCell {
        endX := endX[c.fromSheet := c];
      }
    }
    assert connections[..|connections|] == connections;
  }

  /**
   * The state of the pairing loop after the keys `paired`: `endX` is `ends`
   * without them, each paired key is a connection shape, and `pageEdges[i]`
   * is the edge made for `paired[i]`.
   */
  ghost predicate Matched(connections: seq<ConnectRecord>, shapes: seq<ShapeRecord>, ends: map<string, ConnectRecord>,
                          paired: seq<string>, endX: map<string, ConnectRecord>, connectionShapes: set<string>,
                          pageEdges: seq<EdgeShape>)
  {
    (forall k :: k in endX <==> k in ends && k !in paired) &&
    (forall k | k in endX :: endX[k] == ends[k]) &&
    (forall k :: k in connectionShapes <==> k in paired) &&
    |pageEdges| == |paired| &&
    forall i | 0 <= i < |pageEdges| :: MadeFrom(pageEdges[i], paired[i], connections, shapes)
  }

  lemma MatchedAdd(connections: seq<ConnectRecord>, shapes: seq<ShapeRecord>, ends: map<string, ConnectRecord>,
                   paired: seq<string>, endX: map<string, ConnectRecord>, connectionShapes: set<string>,
                   pageEdges: seq<EdgeShape>, key: string, edge: EdgeShape)
    requires Matched(connections, shapes, ends, paired, endX, connectionShapes, pageEdges)
    requires key in endX && MadeFrom(edge, key, connections, shapes)
    ensures Matched(connections, shapes, ends, paired + [key], endX - {key}, connectionShapes + {key}, pageEdges + [edge])
  {
    MadeFromSnoc(connections, shapes, pageEdges, paired, edge, key);
  }

  /** The edge of a paired connector: its own id and text, from the shape its begin glues to, to the one its end glues to. */
  method MakeEdge(connections: seq<ConnectRecord>, shapes: seq<ShapeRecord>, key: string, toSheetBegin: string, toSheetEnd: string)
    returns (edge: EdgeShape)
    requires key in CellIndex(connections, BeginCell) && key in CellIndex(connections, EndCell) && key in ShapeIds(shapes)
    requires toSheetBegin == CellIndex(connections, BeginCell)[key].toSheet
    requires toSheetEnd == CellIndex(connections, EndCell)[key].toSheet
    ensures MadeFrom(edge, key, connections, shapes)
  {
    var edgeShape := FirstShape(shapes, key);
    edge := new EdgeShape(key, edgeShape.text, toSheetEnd, toSheetBegin);
  }

  /**
   * Makes one edge for each `BeginX` connector that also has an `EndX`, in
   * `BeginX` order. An unmatched end only produces a message; `shapes.First`
   * must find the connector's own shape.
   */
  method MatchConnections(connections: seq<ConnectRecord>, shapes: seq<ShapeRecord>)
    returns (connectionShapes: set<string>, pageEdges: seq<EdgeShape>)
    requires forall k | k in PairedSheets(connections) :: k in ShapeIds(shapes)
    ensures forall k :: k in connectionShapes <==> k in PairedSheets(connections)
    ensures |pageEdges| == |PairedSheets(connections)|
    ensures forall i | 0 <= i < |pageEdges| :: MadeFrom(pageEdges[i], PairedSheets(connections)[i], connections, shapes)
  {
    var beginX, endX, beginOrder := IndexConnections(connections);
    ghost var ends := endX;
    connectionShapes := {};
    pageEdges := [];
    ghost var paired: seq<string> := [];
    for j := 0 to |beginOrder|
      invariant paired == Keep(beginOrder[..j], ends.Keys)
      invariant Matched(connections, shapes, ends, paired, endX, connectionShapes, pageEdges)
    {
      var key := beginOrder[j];
      assert beginOrder[..j + 1] == beginOrder[..j] + [key];
      KeepSnoc(beginOrder[..j], key, ends.Keys);
      assert key !in paired by {
        assert key !in beginOrder[..j];
      }
      LastRecordWins(connections, BeginCell, key);
      var begin := beginX[key];
      var fromSheetBegin := begin.fromSheet;
      var toSheetBegin := begin.toSheet;
      if fromSheetBegin in endX {
        var toSheetEnd := endX[fromSheetBegin].toSheet;
        PairedSheetsExact(connections, key);
        var edge := MakeEdge(connections, shapes, fromSheetBegin, toSheetBegin, toSheetEnd);
        MatchedAdd(connections, shapes, ends, paired, endX, connectionShapes, pageEdges, key, edge);
        pageEdges := pageEdges + [edge];
        connectionShapes := connectionShapes + {fromSheetBegin};
        endX := endX - {fromSheetBegin};
      }
      paired := Keep(beginOrder[..j + 1], ends.Keys);
    }
    assert beginOrder[..|beginOrder|] == beginOrder;
  }

  // ---------------------------------------------------------------------
  // Vertices

  /** The shapes that become vertices, in document order: not a connector, and carrying a `Type` (sub-shapes have none). */
  function VertexRecords(shapes: seq<ShapeRecord>, connectionShapes: set<string>): (r: seq<ShapeRecord>)
    ensures forall x | x in r :: x in shapes && x.id !in connectionShapes && x.shapeType.Some?
    ensures forall x | x in shapes && x.id !in connectionShapes && x.shapeType.Some? :: x in r
    ensures |r| <= |shapes|
    decreases |shapes|
  {
    if shapes == [] then []
    else
      var x := shapes[|shapes| - 1];
      VertexRecords(shapes[..|shapes| - 1], connectionShapes) + if x.id !in connectionShapes && x.shapeType.Some? then [x] else []
  }

  lemma VertexRecordsSnoc(shapes: seq<ShapeRecord>, i: nat, connectionShapes: set<string>)
    requires i < |shapes|
    ensures VertexRecords(shapes[..i + 1], connectionShapes) ==
      VertexRecords(shapes[..i], connectionShapes) + if shapes[i].id !in connectionShapes && shapes[i].shapeType.Some? then [shapes[i]] else []
  {
    assert shapes[..i + 1][..i] == shapes[..i];
  }

  /**
   * The vertex a shape becomes on page `pageName`: its text trimmed (or ""
   * when it has none), its master, and the `SubAddress` of its hyperlink as
   * the page it refers to: "" without a hyperlink, null (`None`) for a
   * hyperlink without a `SubAddress`.
   */
  predicate Describes(v: VertexShape, x: ShapeRecord, pageName: string)
  {
    x.shapeType.Some? &&
    v.Id == x.id && v.Type == x.shapeType.value && v.PageName == pageName && v.MasterId == x.master &&
    v.Text == (if x.text.Some? then Trim(x.text.value) else "") &&
    v.PageReference == (if x.hyperlink.NoHyperlink? then Some("") else x.hyperlink.subAddress)
  }

  lemma DescribesSnoc(vs: seq<VertexShape>, xs: seq<ShapeRecord>, v: VertexShape, x: ShapeRecord, pageName: string)
    requires |vs| == |xs|
    requires forall j | 0 <= j < |vs| :: Describes(vs[j], xs[j], pageName)
    requires Describes(v, x, pageName)
    ensures forall j | 0 <= j < |vs| + 1 :: Describes((vs + [v])[j], (xs + [x])[j], pageName)
  {
    forall j | 0 <= j < |vs| + 1
      ensures Describes((vs + [v])[j], (xs + [x])[j], pageName)
    {
      if j < |vs| {
        assert (vs + [v])[j] == vs[j] && (xs + [x])[j] == xs[j];
      }
    }
  }

  /** The vertex object made for a shape that has a `Type`. */
  method NewVertex(shape: ShapeRecord, pageName: string) returns (vertex: VertexShape)
    requires shape.shapeType.Some?
    ensures fresh(vertex) && Describes(vertex, shape, pageName)
  {
    var text := if shape.text.Some? then Trim(shape.text.value) else "";
    var pageReference := if shape.hyperlink.NoHyperlink? then Some("") else shape.hyperlink.subAddress;
    vertex := new VertexShape(shape.id, text, shape.shapeType.value, pageName, shape.master, pageReference);
  }

  /** The vertices added so far describe `records` one by one, each once, and are registered in both indexes. */
  ghost predicate Extracted(out0: map<VertexShape, map<VertexShape, seq<EdgeShape>>>,
                            in0: map<VertexShape, map<VertexShape, seq<EdgeShape>>>,
                            out: map<VertexShape, map<VertexShape, seq<EdgeShape>>>,
                            inc: map<VertexShape, map<VertexShape, seq<EdgeShape>>>,
                            added: seq<VertexShape>, records: seq<ShapeRecord>, pageName: string)
  {
    |added| == |records| &&
    (forall j | 0 <= j < |added| :: Describes(added[j], records[j], pageName)) &&
    NoDuplicates(added) &&
    out == RegisteredAll(out0, added) && inc == RegisteredAll(in0, added)
  }

  lemma ExtractedSnoc(out0: map<VertexShape, map<VertexShape, seq<EdgeShape>>>,
                      in0: map<VertexShape, map<VertexShape, seq<EdgeShape>>>,
                      out: map<VertexShape, map<VertexShape, seq<EdgeShape>>>,
                      inc: map<VertexShape, map<VertexShape, seq<EdgeShape>>>,
                      added: seq<VertexShape>, records: seq<ShapeRecord>, pageName: string,
                      vertex: VertexShape, shape: ShapeRecord)
    requires Extracted(out0, in0, out, inc, added, records, pageName)
    requires Describes(vertex, shape, pageName) && vertex !in added
    ensures Extracted(out0, in0, Registered(out, vertex), Registered(inc, vertex), added + [vertex], records + [shape], pageName)
  {
    RegisteredAllSnoc(out0, added, vertex);
    RegisteredAllSnoc(in0, added, vertex);
    DescribesSnoc(added, records, vertex, shape, pageName);
    NoDuplicatesSnoc(added, vertex);
  }

  /** One round of `ExtractShapeToVertex`: a fresh vertex for `shape`, added to `g`. */
  method AddShapeVertex(g: Graph, shape: ShapeRecord, pageName: string) returns (vertex: VertexShape)
    requires g.Valid() && shape.shapeType.Some?
    modifies g
    ensures g.Valid() && fresh(vertex) && Describes(vertex, shape, pageName)
    ensures g.outgoing == Registered(old(g.outgoing), vertex) && g.incoming == Registered(old(g.incoming), vertex)
  {
    vertex := NewVertex(shape, pageName);
    var _ := g.AddVertex(vertex);
  }

  /**
   * Adds one new vertex for every shape that is neither a connector nor a
   * sub-shape, in document order.
   */
  method ExtractShapeToVertex(g: Graph, shapes: seq<ShapeRecord>, connectionShapes: set<string>, pageName: string)
    returns (ghost added: seq<VertexShape>)
    requires g.Valid()
    modifies g
    ensures g.Valid()
    ensures |added| == |VertexRecords(shapes, connectionShapes)|
    ensures forall i | 0 <= i < |added| :: Describes(added[i], VertexRecords(shapes, connectionShapes)[i], pageName)
    ensures NoDuplicates(added)
    ensures g.outgoing == RegisteredAll(old(g.outgoing), added) && g.incoming == RegisteredAll(old(g.incoming), added)
  {
    added := [];
    for i := 0 to |shapes|
      invariant g.Valid()
      invariant Extracted(old(g.outgoing), old(g.incoming), g.outgoing, g.incoming, added,
                          VertexRecords(shapes[..i], connectionShapes), pageName)
    {
      var shape := shapes[i];
      VertexRecordsSnoc(shapes, i, connectionShapes);
      var id := shape.id;
      if id !in connectionShapes {
        if shape.shapeType.Some? {
          ghost var out, inc := g.outgoing, g.incoming;
          var vertex := AddShapeVertex(g, shape, pageName);
          assert vertex !in added;
          ExtractedSnoc(old(g.outgoing), old(g.incoming), out, inc, added,
                        VertexRecords(shapes[..i], connectionShapes), pageName, vertex, shape);
          added := added + [vertex];
        }
      }
    }
    assert shapes[..|shapes|] == shapes;
  }

  // ---------------------------------------------------------------------
  // Edges

  /** Some vertex of `vs` has shape id `id` (`FirstOrDefault` finds one). */
  predicate HasId(vs: set<VertexShape>, id: string)
  {
    exists v | v in vs :: v.Id == id
  }

  /** The edges both of whose end ids name a vertex of `vs`, in order: those `AssignEdges` places. */
  function Resolvable(edges: seq<EdgeShape>, vs: set<VertexShape>): (r: seq<EdgeShape>)
    ensures forall e | e in r :: e in edges && HasId(vs, e.FromShape) && HasId(vs, e.ToShape)
    ensures forall e | e in edges && HasId(vs, e.FromShape) && HasId(vs, e.ToShape) :: e in r
    ensures |r| <= |edges|
    decreases |edges|
  {
    if edges == [] then []
    else
      var e := edges[|edges| - 1];
      Resolvable(edges[..|edges| - 1], vs) + if HasId(vs, e.FromShape) && HasId(vs, e.ToShape) then [e] else []
  }

  lemma ResolvableSnoc(edges: seq<EdgeShape>, i: nat, vs: set<VertexShape>)
    requires i < |edges|
    ensures Resolvable(edges[..i + 1], vs) ==
      Resolvable(edges[..i], vs) + if HasId(vs, edges[i].FromShape) && HasId(vs, edges[i].ToShape) then [edges[i]] else []
  {
    assert edges[..i + 1][..i] == edges[..i];
  }

  /** A placed link joins two vertices of `vs` whose ids are the edge's end ids. */
  predicate Anchors(l: PageLink, vs: set<VertexShape>)
  {
    l.src in vs && l.dst in vs && l.src.Id == l.edge.FromShape && l.dst.Id == l.edge.ToShape
  }

  /**
   * One step of `AssignEdges`: when both end ids of `edge` name vertices of
   * the graph, adds it between a vertex with its `FromShape` id and one with
   * its `ToShape` id, and says which link it placed; otherwise changes
   * nothing.
   */
  method AssignEdge(edge: EdgeShape, g: Graph) returns (ghost placed: Option<PageLink>)
    requires g.Valid()
    modifies g
    ensures g.Valid()
    ensures g.outgoing.Keys == old(g.outgoing.Keys)
    ensures placed.Some? <==> HasId(old(g.Vertices()), edge.FromShape) && HasId(old(g.Vertices()), edge.ToShape)
    ensures placed.Some? ==> placed.value.edge == edge && Anchors(placed.value, old(g.Vertices()))
    ensures placed.Some? ==>
      g.outgoing == Placed(old(g.outgoing), placed.value.src, placed.value.dst, placed.value.src, placed.value.dst, edge) &&
      g.incoming == Placed(old(g.incoming), placed.value.src, placed.value.dst, placed.value.dst, placed.value.src, edge)
    ensures placed.None? ==> g.outgoing == old(g.outgoing) && g.incoming == old(g.incoming)
  {
    if HasId(g.Vertices(), edge.FromShape) && HasId(g.Vertices(), edge.ToShape) {
      var fromShape :| fromShape in g.Vertices() && fromShape.Id == edge.FromShape;
      var toShape :| toShape in g.Vertices() && toShape.Id == edge.ToShape;
      PlacedBuckets(g.outgoing, fromShape, toShape, fromShape, toShape, edge);
      g.Add(fromShape, toShape, edge);
      placed := Some(Link(fromShape, toShape, edge));
    } else {
      placed := None;
    }
  }

  /**
   * Adds each edge whose two end ids name vertices of the graph, between a
   * vertex with its `FromShape` id and one with its `ToShape` id; an edge
   * with an unknown end is only reported. Which vertex is found when two
   * share an id is the hash set's choice.
   */
  method AssignEdges(pageEdges: seq<EdgeShape>, g: Graph) returns (ghost links: seq<PageLink>)
    requires g.Valid()
    modifies g
    ensures g.Valid()
    ensures g.Vertices() == old(g.Vertices())
    ensures g.outgoing == LinkedOut(old(g.outgoing), links) && g.incoming == LinkedIn(old(g.incoming), links)
    ensures LinkEdges(links) == Resolvable(pageEdges, old(g.Vertices()))
    ensures forall l | l in links :: Anchors(l, old(g.Vertices()))
  {
    links := [];
    ghost var vs := g.Vertices();
    for i := 0 to |pageEdges|
      invariant g.Valid()
      invariant g.outgoing.Keys == vs
      invariant g.outgoing == LinkedOut(old(g.outgoing), links) && g.incoming == LinkedIn(old(g.incoming), links)
      invariant LinkEdges(links) == Resolvable(pageEdges[..i], vs)
      invariant forall l | l in links :: Anchors(l, vs)
    {
      ResolvableSnoc(pageEdges, i, vs);
      ghost var placed := AssignEdge(pageEdges[i], g);
      if placed.Some? {
        LinkedSnoc(old(g.outgoing), old(g.incoming), links, placed.value);
        LinkEdgesSnoc(links, placed.value);
        links := links + [placed.value];
      }
    }
    assert pageEdges[..|pageEdges|] == pageEdges;
  }

  // ---------------------------------------------------------------------
  // One page

  /** The ids of the connectors `MatchConnections` pairs: these shapes are not vertices. */
  function Connectors(connections: seq<ConnectRecord>): set<string>
  {
    set k | k in PairedSheets(connections)
  }

  /** The shapes of a page that become its vertices. */
  function PageVertexRecords(shapes: seq<ShapeRecord>, connections: seq<ConnectRecord>): seq<ShapeRecord>
  {
    VertexRecords(shapes, Connectors(connections))
  }

  function RecordIds(records: seq<ShapeRecord>): set<string>
  {
    set x | x in records :: x.id
  }

  /** The connector ids among `keys` whose two ends are glued to shapes with ids in `ids`, in order. */
  function Wired(keys: seq<string>, connections: seq<ConnectRecord>, ids: set<string>): (r: seq<string>)
    ensures |r| <= |keys|
    ensures forall k | k in r :: k in keys
    ensures NoDuplicates(keys) ==> NoDuplicates(r)
    decreases |keys|
  {
    if keys == [] then []
    else
      var k := keys[|keys| - 1];
      var begins, ends := CellIndex(connections, BeginCell), CellIndex(connections, EndCell);
      var p := Wired(keys[..|keys| - 1], connections, ids);
      assert NoDuplicates(keys) ==> NoDuplicates(keys[..|keys| - 1]) && k !in p;
      p +
        if k in begins && k in ends && begins[k].toSheet in ids && ends[k].toSheet in ids then [k] else []
  }

  /** One more key extends the wired connectors by that key exactly when both its ends are glued to shapes in `ids`. */
  lemma WiredLast(keys: seq<string>, connections: seq<ConnectRecord>, ids: set<string>)
    requires keys != []
    ensures var k, begins, ends := keys[|keys| - 1], CellIndex(connections, BeginCell), CellIndex(connections, EndCell);
      Wired(keys, connections, ids) == Wired(keys[..|keys| - 1], connections, ids) +
        if k in begins && k in ends && begins[k].toSheet in ids && ends[k].toSheet in ids then [k] else []
  {
  }

  /** The connectors of a page that become edges of its graph: paired, with both ends glued to vertices. */
  function WiredSheets(shapes: seq<ShapeRecord>, connections: seq<ConnectRecord>): seq<string>
  {
    Wired(PairedSheets(connections), connections, RecordIds(PageVertexRecords(shapes, connections)))
  }

  /** Edge `e`, stored from `s` to `d`, joins the vertices its end ids name and was made from one of the connectors `wired`. */
  ghost predicate PlacedFrom(s: VertexShape, d: VertexShape, e: EdgeShape, wired: seq<string>,
                             connections: seq<ConnectRecord>, shapes: seq<ShapeRecord>)
  {
    s.Id == e.FromShape && d.Id == e.ToShape && exists k | k in wired :: MadeFrom(e, k, connections, shapes)
  }

  /** Every edge of the index is placed as `PlacedFrom` says. */
  ghost predicate EdgesFrom(out: map<VertexShape, map<VertexShape, seq<EdgeShape>>>, wired: seq<string>,
                            connections: seq<ConnectRecord>, shapes: seq<ShapeRecord>)
  {
    forall s, d | s in out && d in out[s] :: forall e | e in out[s][d] :: PlacedFrom(s, d, e, wired, connections, shapes)
  }

  /** `order` lists the vertices of `vs`, each once, the `i`th made from the `i`th of `records`. */
  ghost predicate Enumerates(order: seq<VertexShape>, vs: set<VertexShape>, records: seq<ShapeRecord>, pageName: string)
  {
    |order| == |records| && NoDuplicates(order) && (set v | v in order) == vs &&
    forall i | 0 <= i < |order| :: Describes(order[i], records[i], pageName)
  }

  /** So there are as many vertices as records, each made from one record, and each record made into one. */
  lemma EnumeratedVertices(order: seq<VertexShape>, vs: set<VertexShape>, records: seq<ShapeRecord>, pageName: string)
    requires Enumerates(order, vs, records, pageName)
    ensures |vs| == |records|
    ensures forall v | v in vs :: exists x | x in records :: Describes(v, x, pageName)
    ensures forall x | x in records :: exists v | v in vs :: Describes(v, x, pageName)
  {
    NoDuplicatesCard(order);
    DescribedIds(order, records, pageName);
  }

  /** `edges` lists one edge per connector of `wired`, the `i`th made from the `i`th connector. */
  ghost predicate MadeFromEach(edges: seq<EdgeShape>, wired: seq<string>,
                               connections: seq<ConnectRecord>, shapes: seq<ShapeRecord>)
  {
    |edges| == |wired| && forall i | 0 <= i < |edges| :: MadeFrom(edges[i], wired[i], connections, shapes)
  }

  /** For every connector of `wired`, the index stores an edge made from it. */
  ghost predicate Covers(out: map<VertexShape, map<VertexShape, seq<EdgeShape>>>, wired: seq<string>,
                         connections: seq<ConnectRecord>, shapes: seq<ShapeRecord>)
  {
    forall k | k in wired :: exists s, d, e | s in out && d in out[s] && e in out[s][d] :: MadeFrom(e, k, connections, shapes)
  }

  /**
   * The graph of one page, stated on its two indices: one vertex per vertex
   * shape and nothing else (`order` lists them), and as entries exactly the
   * edges `edges` made one by one from the wired connectors, every edge
   * stored between the vertices its end ids name.
   */
  ghost predicate IsPageIndex(out: map<VertexShape, map<VertexShape, seq<EdgeShape>>>,
                              inc: map<VertexShape, map<VertexShape, seq<EdgeShape>>>, order: seq<VertexShape>,
                              edges: seq<EdgeShape>,
                              shapes: seq<ShapeRecord>, connections: seq<ConnectRecord>, pageName: string)
  {
    Mirrored(out, inc) &&
    Enumerates(order, out.Keys, PageVertexRecords(shapes, connections), pageName) &&
    MadeFromEach(edges, WiredSheets(shapes, connections), connections, shapes) &&
    IndexBag(out) == multiset(edges) &&
    IndexTotal(out) == |WiredSheets(shapes, connections)| &&
    EdgesFrom(out, WiredSheets(shapes, connections), connections, shapes)
  }

  /** An index whose entries are edges made one by one from `wired` stores an edge made from each of them. */
  lemma CoversWired(out: map<VertexShape, map<VertexShape, seq<EdgeShape>>>, edges: seq<EdgeShape>, wired: seq<string>,
                  connections: seq<ConnectRecord>, shapes: seq<ShapeRecord>)
    requires MadeFromEach(edges, wired, connections, shapes) && IndexBag(out) == multiset(edges)
    ensures Covers(out, wired, connections, shapes)
  {
    forall k | k in wired
      ensures exists s, d, e | s in out && d in out[s] && e in out[s][d] :: MadeFrom(e, k, connections, shapes)
    {
      var i :| 0 <= i < |wired| && wired[i] == k;
      var e := edges[i];
      assert e in multiset(edges);
      IndexBagMembers(out, e);
      var s, d :| s in out && d in out[s] && e in out[s][d];
    }
  }

  /** The edges `AssignEdges` keeps correspond, one by one and in order, to the wired connectors. */
  lemma {:induction false} ResolvableWired(edges: seq<EdgeShape>, keys: seq<string>, connections: seq<ConnectRecord>,
                                           shapes: seq<ShapeRecord>, vs: set<VertexShape>, ids: set<string>)
    requires |edges| == |keys|
    requires forall i | 0 <= i < |edges| :: MadeFrom(edges[i], keys[i], connections, shapes)
    requires forall id :: HasId(vs, id) <==> id in ids
    ensures |Resolvable(edges, vs)| == |Wired(keys, connections, ids)|
    ensures forall i | 0 <= i < |Resolvable(edges, vs)| ::
      MadeFrom(Resolvable(edges, vs)[i], Wired(keys, connections, ids)[i], connections, shapes)
    decreases |edges|
  {
    if edges != [] {
      var n := |edges| - 1;
      var e, k := edges[n], keys[n];
      ResolvableWired(edges[..n], keys[..n], connections, shapes, vs, ids);
      assert MadeFrom(e, k, connections, shapes);
      var r0, w0 := Resolvable(edges[..n], vs), Wired(keys[..n], connections, ids);
      WiredLast(keys, connections, ids);
      if HasId(vs, e.FromShape) && HasId(vs, e.ToShape) {
        assert Resolvable(edges, vs) == r0 + [e];
        assert Wired(keys, connections, ids) == w0 + [k];
        MadeFromSnoc(connections, shapes, r0, w0, e, k);
      } else {
        assert Resolvable(edges, vs) == r0;
        assert Wired(keys, connections, ids) == w0;
      }
    }
  }

  /** The vertices made from a list of shapes have exactly those shapes' ids. */
  lemma DescribedIds(added: seq<VertexShape>, records: seq<ShapeRecord>, pageName: string)
    requires |added| == |records|
    requires forall i | 0 <= i < |added| :: Describes(added[i], records[i], pageName)
    ensures forall id :: HasId((set v | v in added), id) <==> id in RecordIds(records)
    ensures forall v | v in added :: exists x | x in records :: Describes(v, x, pageName)
    ensures forall x | x in records :: exists v | v in added :: Describes(v, x, pageName)
  {
    forall id ensures HasId((set v | v in added), id) <==> id in RecordIds(records) {
      if HasId((set v | v in added), id) {
        var v :| v in added && v.Id == id;
        var i :| 0 <= i < |added| && added[i] == v;
        assert records[i] in records;
      }
      if id in RecordIds(records) {
        var x :| x in records && x.id == id;
        var i :| 0 <= i < |records| && records[i] == x;
        assert added[i] in added;
      }
    }
    forall v | v in added ensures exists x | x in records :: Describes(v, x, pageName) {
      var i :| 0 <= i < |added| && added[i] == v;
      assert records[i] in records;
    }
    forall x | x in records ensures exists v | v in added :: Describes(v, x, pageName) {
      var i :| 0 <= i < |records| && records[i] == x;
      assert added[i] in added;
    }
  }

  /** The edges of a page graph: placed by links whose edges are made from the wired connectors, in order. */
  lemma BuiltEdges(out: map<VertexShape, map<VertexShape, seq<EdgeShape>>>, links: seq<PageLink>, vs: set<VertexShape>,
                   resolved: seq<EdgeShape>, wired: seq<string>, connections: seq<ConnectRecord>, shapes: seq<ShapeRecord>)
    requires forall s, d :: Bucket(out, s, d) == Between(links, s, d)
    requires LinkEdges(links) == resolved && |resolved| == |wired|
    requires forall i | 0 <= i < |resolved| :: MadeFrom(resolved[i], wired[i], connections, shapes)
    requires forall l | l in links :: Anchors(l, vs)
    ensures EdgesFrom(out, wired, connections, shapes)
  {
    forall s, d | s in out && d in out[s]
      ensures forall e | e in out[s][d] :: PlacedFrom(s, d, e, wired, connections, shapes)
    {
      forall e | e in out[s][d]
        ensures PlacedFrom(s, d, e, wired, connections, shapes)
      {
        assert Bucket(out, s, d) == Between(links, s, d);
        BetweenFromLinks(links, s, d, e);
        var i :| 0 <= i < |links| && links[i] == Link(s, d, e);
        assert Anchors(links[i], vs);
        assert MadeFrom(resolved[i], wired[i], connections, shapes);
      }
    }
  }

  /** The edges `AssignEdges` keeps, given the vertices `ExtractShapeToVertex` made, match the wired connectors one by one. */
  lemma BuiltWiring(shapes: seq<ShapeRecord>, connections: seq<ConnectRecord>, pageName: string,
                    pageEdges: seq<EdgeShape>, added: seq<VertexShape>)
    requires |pageEdges| == |PairedSheets(connections)|
    requires forall i | 0 <= i < |pageEdges| :: MadeFrom(pageEdges[i], PairedSheets(connections)[i], connections, shapes)
    requires |added| == |PageVertexRecords(shapes, connections)|
    requires forall i | 0 <= i < |added| :: Describes(added[i], PageVertexRecords(shapes, connections)[i], pageName)
    ensures |Resolvable(pageEdges, (set v | v in added))| == |WiredSheets(shapes, connections)|
    ensures forall i | 0 <= i < |Resolvable(pageEdges, (set v | v in added))| ::
      MadeFrom(Resolvable(pageEdges, (set v | v in added))[i], WiredSheets(shapes, connections)[i], connections, shapes)
  {
    var records := PageVertexRecords(shapes, connections);
    DescribedIds(added, records, pageName);
    ResolvableWired(pageEdges, PairedSheets(connections), connections, shapes, (set v | v in added), RecordIds(records));
  }

  /** Registering vertices and then linking `n` edges leaves an index holding `n` edges. */
  lemma BuiltCount(added: seq<VertexShape>, links: seq<PageLink>)
    ensures IndexTotal(LinkedOut(RegisteredAll(map[], added), links)) == |links|
  {
    var out0: map<VertexShape, map<VertexShape, seq<EdgeShape>>> := map[];
    RegisteredAllEffect(out0, added);
    LinkedCount(RegisteredAll(out0, added), RegisteredAll(out0, added), links);
  }

  /** Registering vertices and then linking edges leaves in each bucket exactly the edges linked between its two vertices. */
  lemma BuiltBuckets(added: seq<VertexShape>, links: seq<PageLink>)
    ensures forall s, d :: Bucket(LinkedOut(RegisteredAll(map[], added), links), s, d) == Between(links, s, d)
  {
    var out0: map<VertexShape, map<VertexShape, seq<EdgeShape>>> := map[];
    RegisteredAllEffect(out0, added);
    LinkedOutBuckets(RegisteredAll(out0, added), links);
    forall s, d ensures Bucket(LinkedOut(RegisteredAll(out0, added), links), s, d) == Between(links, s, d) {
      assert Bucket(out0, s, d) == [];
    }
  }

  /** What the three steps of `BuildGraph` leave behind, read from their effects on an empty graph. */
  lemma BuiltIndex(shapes: seq<ShapeRecord>, connections: seq<ConnectRecord>, pageName: string,
                   pageEdges: seq<EdgeShape>, added: seq<VertexShape>, links: seq<PageLink>)
    requires |pageEdges| == |PairedSheets(connections)|
    requires forall i | 0 <= i < |pageEdges| :: MadeFrom(pageEdges[i], PairedSheets(connections)[i], connections, shapes)
    requires |added| == |PageVertexRecords(shapes, connections)| && NoDuplicates(added)
    requires forall i | 0 <= i < |added| :: Describes(added[i], PageVertexRecords(shapes, connections)[i], pageName)
    requires LinkEdges(links) == Resolvable(pageEdges, (set v | v in added))
    requires forall l | l in links :: Anchors(l, (set v | v in added))
    requires LinkedOut(RegisteredAll(map[], added), links).Keys == set v | v in added
    requires Mirrored(LinkedOut(RegisteredAll(map[], added), links), LinkedIn(RegisteredAll(map[], added), links))
    ensures IsPageIndex(LinkedOut(RegisteredAll(map[], added), links), LinkedIn(RegisteredAll(map[], added), links),
                        added, LinkEdges(links), shapes, connections, pageName)
  {
    var vs := set v | v in added;
    var out0: map<VertexShape, map<VertexShape, seq<EdgeShape>>> := map[];
    var out := LinkedOut(RegisteredAll(out0, added), links);
    var wired := WiredSheets(shapes, connections);
    var resolved := Resolvable(pageEdges, vs);
    BuiltWiring(shapes, connections, pageName, pageEdges, added);
    BuiltCount(added, links);
    assert |links| == |wired|;
    BuiltBuckets(added, links);
    BuiltEdges(out, links, vs, resolved, wired, connections, shapes);
    RegisteredAllBag(out0, added);
    LinkedBag(RegisteredAll(out0, added), links);
    assert IndexBag(out0) == multiset{};
  }

  /**
   * The three steps of `BuildGraph` run on an empty graph: pair the connector
   * ends, add one vertex per remaining shape, then place the edges.
   * `order` lists the vertices in the order they were added, `edges` the
   * edges in the order they were placed.
   */
  method Populate(graph: Graph, shapes: seq<ShapeRecord>, connections: seq<ConnectRecord>, pageName: string)
    returns (ghost order: seq<VertexShape>, ghost edges: seq<EdgeShape>)
    requires graph.outgoing == map[] && graph.incoming == map[]
    requires forall k | k in PairedSheets(connections) :: k in ShapeIds(shapes)
    modifies graph
    ensures graph.Valid()
    ensures IsPageIndex(graph.outgoing, graph.incoming, order, edges, shapes, connections, pageName)
  {
    var connectionShapes, pageEdges := MatchConnections(connections, shapes);
    assert connectionShapes == Connectors(connections);
    order := ExtractShapeToVertex(graph, shapes, connectionShapes, pageName);
    ghost var empty: map<VertexShape, map<VertexShape, seq<EdgeShape>>> := map[];
    RegisteredAllEffect(empty, order);
    assert graph.Vertices() == set v | v in order;
    var links := AssignEdges(pageEdges, graph);
    BuiltIndex(shapes, connections, pageName, pageEdges, order, links);
    edges := LinkEdges(links);
  }

  /** `BuildGraph`: the graph of one page, as `IsPageIndex` describes it. */
  method BuildGraph(shapes: seq<ShapeRecord>, connections: seq<ConnectRecord>, pageName: string)
    returns (graph: Graph, ghost order: seq<VertexShape>, ghost edges: seq<EdgeShape>)
    requires forall k | k in PairedSheets(connections) :: k in ShapeIds(shapes)
    ensures graph.Valid()
    ensures IsPageIndex(graph.outgoing, graph.incoming, order, edges, shapes, connections, pageName)
  {
    graph := new DirectedMultiGraph<VertexShape, EdgeShape>();
    order, edges := Populate(graph, shapes, connections, pageName);
  }

  /**
   * A page graph has one vertex per vertex shape, carrying that shape's id,
   * and one edge per wired connector: an edge made from each, no entry
   * stored twice, and no two entries made from the same connector.
   */
  lemma PageIndexShape(out: map<VertexShape, map<VertexShape, seq<EdgeShape>>>,
                       inc: map<VertexShape, map<VertexShape, seq<EdgeShape>>>, order: seq<VertexShape>,
                       edges: seq<EdgeShape>,
                       shapes: seq<ShapeRecord>, connections: seq<ConnectRecord>, pageName: string)
    requires IsPageIndex(out, inc, order, edges, shapes, connections, pageName)
    ensures |out.Keys| == |PageVertexRecords(shapes, connections)|
    ensures forall id :: HasId(out.Keys, id) <==> id in RecordIds(PageVertexRecords(shapes, connections))
    ensures IndexTotal(out) == |WiredSheets(shapes, connections)| <= |PairedSheets(connections)|
    ensures Covers(out, WiredSheets(shapes, connections), connections, shapes)
    ensures forall e | e in IndexBag(out) :: IndexBag(out)[e] == 1
    ensures forall e1, e2 | e1 in IndexBag(out) && e2 in IndexBag(out) && e1.Id == e2.Id :: e1 == e2
  {
    var records := PageVertexRecords(shapes, connections);
    EnumeratedVertices(order, out.Keys, records, pageName);
    DescribedIds(order, records, pageName);
    PairedSheetsExact(connections, "");
    WiredEntries(out, edges, WiredSheets(shapes, connections), connections, shapes);
  }

  /** An index whose entries are edges made one by one from different connectors stores one edge per connector. */
  lemma WiredEntries(out: map<VertexShape, map<VertexShape, seq<EdgeShape>>>, edges: seq<EdgeShape>, wired: seq<string>,
                     connections: seq<ConnectRecord>, shapes: seq<ShapeRecord>)
    requires MadeFromEach(edges, wired, connections, shapes) && IndexBag(out) == multiset(edges)
    requires NoDuplicates(wired)
    ensures Covers(out, wired, connections, shapes)
    ensures forall e | e in IndexBag(out) :: IndexBag(out)[e] == 1
    ensures forall e1, e2 | e1 in IndexBag(out) && e2 in IndexBag(out) && e1.Id == e2.Id :: e1 == e2
  {
    CoversWired(out, edges, wired, connections, shapes);
    DistinctEdges(edges, wired, connections, shapes);
    SingleEntries(IndexBag(out), edges);
  }

  /** The multiset of a list of different edges that differ in their ids holds each once, and no two with one id. */
  lemma SingleEntries(bag: multiset<EdgeShape>, edges: seq<EdgeShape>)
    requires bag == multiset(edges) && NoDuplicates(edges)
    requires forall e1, e2 | e1 in edges && e2 in edges && e1.Id == e2.Id :: e1 == e2
    ensures forall e | e in bag :: bag[e] == 1
    ensures forall e1, e2 | e1 in bag && e2 in bag && e1.Id == e2.Id :: e1 == e2
  {
    forall e | e in bag ensures bag[e] == 1 {
      NoDuplicatesOnce(edges, e);
    }
  }

  /** Edges made one by one from the wired connectors are all different, and differ in their ids. */
  lemma DistinctEdges(edges: seq<EdgeShape>, wired: seq<string>, connections: seq<ConnectRecord>, shapes: seq<ShapeRecord>)
    requires MadeFromEach(edges, wired, connections, shapes)
    requires NoDuplicates(wired)
    ensures NoDuplicates(edges)
    ensures forall e1, e2 | e1 in edges && e2 in edges && e1.Id == e2.Id :: e1 == e2
  {
    forall i, j | 0 <= i < j < |edges| ensures edges[i] != edges[j] {
      assert MadeFrom(edges[i], wired[i], connections, shapes) && MadeFrom(edges[j], wired[j], connections, shapes);
    }
    forall e1, e2 | e1 in edges && e2 in edges && e1.Id == e2.Id ensures e1 == e2 {
      var i :| 0 <= i < |edges| && edges[i] == e1;
      var j :| 0 <= j < |edges| && edges[j] == e2;
      assert MadeFrom(edges[i], wired[i], connections, shapes) && MadeFrom(edges[j], wired[j], connections, shapes);
    }
  }

  /**
   * The older builder's page graph: the page index with its isolated vertices
   * deleted. Every entry survives, so every wired connector still has its
   * edge, and every vertex left has an edge.
   */
  lemma {:induction false} TrimmedPage(out: map<VertexShape, map<VertexShape, seq<EdgeShape>>>,
                                       inc: map<VertexShape, map<VertexShape, seq<EdgeShape>>>, order: seq<VertexShape>,
                                       edges: seq<EdgeShape>,
                                       shapes: seq<ShapeRecord>, connections: seq<ConnectRecord>, pageName: string)
    requires IsPageIndex(out, inc, order, edges, shapes, connections, pageName)
    ensures Without(out, IsolatedIn(out, inc)).Keys == (set v | v in order) - IsolatedIn(out, inc)
    ensures forall v | v in Without(out, IsolatedIn(out, inc)) :: out[v] != map[] || inc[v] != map[]
    ensures IndexTotal(Without(out, IsolatedIn(out, inc))) == |WiredSheets(shapes, connections)|
    ensures EdgesFrom(Without(out, IsolatedIn(out, inc)), WiredSheets(shapes, connections), connections, shapes)
    ensures IndexBag(Without(out, IsolatedIn(out, inc))) == multiset(edges)
    ensures Covers(Without(out, IsolatedIn(out, inc)), WiredSheets(shapes, connections), connections, shapes)
  {
    TrimmedVertices(out, inc, set v | v in order);
    TrimmedEntries(out, IsolatedIn(out, inc), edges, WiredSheets(shapes, connections), connections, shapes);
  }

  /** Deleting the isolated vertices leaves the others, each with an edge. */
  lemma TrimmedVertices(out: map<VertexShape, map<VertexShape, seq<EdgeShape>>>,
                        inc: map<VertexShape, map<VertexShape, seq<EdgeShape>>>, vs: set<VertexShape>)
    requires Mirrored(out, inc) && out.Keys == vs
    ensures Without(out, IsolatedIn(out, inc)).Keys == vs - IsolatedIn(out, inc)
    ensures forall v | v in Without(out, IsolatedIn(out, inc)) :: out[v] != map[] || inc[v] != map[]
  {
    forall v | v in Without(out, IsolatedIn(out, inc)) ensures out[v] != map[] || inc[v] != map[] {
      MirroredPair(out, inc, v, v);
    }
  }

  /** Deleting vertices with no outgoing bucket keeps every entry, and so an edge made from each wired connector. */
  lemma TrimmedEntries(out: map<VertexShape, map<VertexShape, seq<EdgeShape>>>, ks: set<VertexShape>,
                       edges: seq<EdgeShape>, wired: seq<string>, connections: seq<ConnectRecord>, shapes: seq<ShapeRecord>)
    requires forall k | k in ks && k in out :: out[k] == map[]
    requires MadeFromEach(edges, wired, connections, shapes) && IndexBag(out) == multiset(edges)
    requires IndexTotal(out) == |wired| && EdgesFrom(out, wired, connections, shapes)
    ensures IndexTotal(Without(out, ks)) == |wired|
    ensures EdgesFrom(Without(out, ks), wired, connections, shapes)
    ensures IndexBag(Without(out, ks)) == multiset(edges)
    ensures Covers(Without(out, ks), wired, connections, shapes)
  {
    WithoutEmptyTotal(out, ks);
    WithoutEmptyBag(out, ks);
    CoversWired(Without(out, ks), edges, wired, connections, shapes);
  }

  /** `BuildGraph` of the older builder: the same three steps, then `RemoveZeroDegreeNodes`. */
  method LegacyBuildGraph(shapes: seq<ShapeRecord>, connections: seq<ConnectRecord>, pageName: string)
    returns (graph: Graph, ghost order: seq<VertexShape>, ghost edges: seq<EdgeShape>,
             ghost full: map<VertexShape, map<VertexShape, seq<EdgeShape>>>,
             ghost fullIn: map<VertexShape, map<VertexShape, seq<EdgeShape>>>)
    requires forall k | k in PairedSheets(connections) :: k in ShapeIds(shapes)
    ensures graph.Valid()
    ensures IsPageIndex(full, fullIn, order, edges, shapes, connections, pageName)
    ensures graph.outgoing == Without(full, IsolatedIn(full, fullIn))
    ensures graph.incoming == Without(fullIn, IsolatedIn(full, fullIn))
  {
    graph := new DirectedMultiGraph<VertexShape, EdgeShape>();
    order, edges := Populate(graph, shapes, connections, pageName);
    full, fullIn := graph.outgoing, graph.incoming;
    graph.RemoveZeroDegreeNodes();
  }

  /**
   * `MergePageGraph`: copies every vertex of a page graph into `merged`, then
   * every edge, placed between the first page vertices whose ids match the
   * edge's end ids. `order` lists the copied vertices, `links` the placed edges.
   */
  method MergePageGraph(graph: Graph, merged: Graph) returns (ghost order: seq<VertexShape>, ghost links: seq<PageLink>)
    requires graph.Valid() && merged.Valid() && graph != merged
    requires forall e | e in graph.Edges() :: HasId(graph.Vertices(), e.FromShape) && HasId(graph.Vertices(), e.ToShape)
    modifies merged
    ensures merged.Valid()
    ensures (set v | v in order) == graph.Vertices()
    ensures merged.outgoing == LinkedOut(RegisteredAll(old(merged.outgoing), order), links)
    ensures merged.incoming == LinkedIn(RegisteredAll(old(merged.incoming), order), links)
    ensures multiset(LinkEdges(links)) == graph.EdgeBag()
    ensures |links| == graph.EdgeCount()
    ensures forall l | l in links :: l.edge in graph.Edges() && Anchors(l, graph.Vertices())
  {
    order := CopyVertices(graph, merged);
    var edges := graph.EdgeList();
    links := PlaceEdges(graph, merged, edges);
  }

  /** The first loop of `MergePageGraph`: every vertex of `graph` registered in `merged`. */
  method CopyVertices(graph: Graph, merged: Graph) returns (ghost order: seq<VertexShape>)
    requires graph.Valid() && merged.Valid() && graph != merged
    modifies merged
    ensures merged.Valid()
    ensures (set v | v in order) == graph.Vertices()
    ensures merged.outgoing == RegisteredAll(old(merged.outgoing), order)
    ensures merged.incoming == RegisteredAll(old(merged.incoming), order)
  {
    order := [];
    var rest := graph.Vertices();
    while rest != {}
      invariant merged.Valid()
      invariant rest <= graph.Vertices() && (set v | v in order) == graph.Vertices() - rest
      invariant merged.outgoing == RegisteredAll(old(merged.outgoing), order)
      invariant merged.incoming == RegisteredAll(old(merged.incoming), order)
      decreases |rest|
    {
      var v :| v in rest;
      var _ := merged.AddVertex(v);
      RegisteredAllSnoc(old(merged.outgoing), order, v);
      RegisteredAllSnoc(old(merged.incoming), order, v);
      assert (set x | x in order + [v]) == (set x | x in order) + {v};
      order := order + [v];
      rest := rest - {v};
    }
  }

  /** The second loop of `MergePageGraph`: each listed edge placed between the page vertices its end ids name. */
  method PlaceEdges(graph: Graph, merged: Graph, edges: seq<EdgeShape>) returns (ghost links: seq<PageLink>)
    requires graph.Valid() && merged.Valid() && graph != merged
    requires forall e | e in graph.Edges() :: HasId(graph.Vertices(), e.FromShape) && HasId(graph.Vertices(), e.ToShape)
    requires forall e | e in edges :: e in graph.Edges()
    modifies merged
    ensures merged.Valid()
    ensures merged.outgoing == LinkedOut(old(merged.outgoing), links)
    ensures merged.incoming == LinkedIn(old(merged.incoming), links)
    ensures LinkEdges(links) == edges
    ensures forall l | l in links :: l.edge in graph.Edges() && Anchors(l, graph.Vertices())
  {
    links := [];
    ghost var registeredOut, registeredIn := merged.outgoing, merged.incoming;
    assert edges[..0] == [];
    for i := 0 to |edges|
      invariant merged.Valid()
      invariant LinkEdges(links) == edges[..i]
      invariant merged.outgoing == LinkedOut(registeredOut, links) && merged.incoming == LinkedIn(registeredIn, links)
      invariant forall l | l in links :: l.edge in graph.Edges() && Anchors(l, graph.Vertices())
    {
      var e := edges[i];
      assert e in edges && e in graph.Edges();
      assert HasId(graph.Vertices(), e.FromShape) && HasId(graph.Vertices(), e.ToShape);
      var src :| src in graph.Vertices() && src.Id == e.FromShape;
      var dst :| dst in graph.Vertices() && dst.Id == e.ToShape;
      merged.Add(src, dst, e);
      LinkedSnoc(registeredOut, registeredIn, links, Link(src, dst, e));
      LinkEdgesPrefix(links, Link(src, dst, e), edges, i);
      links := links + [Link(src, dst, e)];
    }
    assert edges[..|edges|] == edges;
  }

  /**
   * What merging a page leaves in the merged index: its vertices joined with
   * the page's, one more edge per placed link, each bucket extended by the
   * links placed between its two vertices.
   */
  lemma MergedIndex(out0: map<VertexShape, map<VertexShape, seq<EdgeShape>>>, order: seq<VertexShape>,
                    links: seq<PageLink>, vs: set<VertexShape>)
    requires (set v | v in order) == vs
    requires forall l | l in links :: Anchors(l, vs)
    ensures LinkedOut(RegisteredAll(out0, order), links).Keys == out0.Keys + vs
    ensures IndexTotal(LinkedOut(RegisteredAll(out0, order), links)) == IndexTotal(out0) + |links|
    ensures forall s, d :: Bucket(LinkedOut(RegisteredAll(out0, order), links), s, d) == Bucket(out0, s, d) + Between(links, s, d)
  {
    RegisteredAllEffect(out0, order);
    LinkedOutBuckets(RegisteredAll(out0, order), links);
    LinkedCount(RegisteredAll(out0, order), RegisteredAll(out0, order), links);
    EndpointsWithin(links, vs);
  }
}
