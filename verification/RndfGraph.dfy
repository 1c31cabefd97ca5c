/** From a parsed RNDF to the indexed way-point graph. */
module RndfGraph {
  import opened WayPoints
  import Rndf

  type IdMap = map<ElementId, Node>

  // ---------------------------------------------------------------- vertices

  datatype Vertex = Vertex(id: ElementId, isSpot: bool, isPerimeter: bool)

  function VerticesOf(seg: int, lane: int, points: seq<Rndf.Waypoint>, isSpot: bool, isPerimeter: bool): (r: seq<Vertex>)
    ensures |r| == |points|
  {
    seq(|points|, i requires 0 <= i < |points| => Vertex(NewId(seg, lane, points[i].id), isSpot, isPerimeter))
  }

  function LaneVertices(seg: int, lanes: seq<Rndf.Lane>): seq<Vertex> {
    if lanes == [] then []
    else
      var n := |lanes| - 1;
      LaneVertices(seg, lanes[..n]) + VerticesOf(seg, lanes[n].id, lanes[n].waypoints, false, false)
  }

  function RoadVertices(segments: seq<Rndf.Segment>): seq<Vertex> {
    if segments == [] then []
    else
      var n := |segments| - 1;
      RoadVertices(segments[..n]) + LaneVertices(segments[n].id, segments[n].lanes)
  }

  function SpotVertices(zone: int, spots: seq<Rndf.Spot>): seq<Vertex> {
    if spots == [] then []
    else
      var n := |spots| - 1;
      SpotVertices(zone, spots[..n]) + VerticesOf(zone, spots[n].id, spots[n].waypoints, true, false)
  }

  function ParkingVertices(zones: seq<Rndf.Zone>): seq<Vertex> {
    if zones == [] then []
    else
      var n := |zones| - 1;
      ParkingVertices(zones[..n]) + SpotVertices(zones[n].id, zones[n].spots)
  }

  function PerimeterVertices(zones: seq<Rndf.Zone>): seq<Vertex> {
    if zones == [] then []
    else
      var n := |zones| - 1;
      PerimeterVertices(zones[..n])
      + VerticesOf(zones[n].id, zones[n].perimeter.id, zones[n].perimeter.points, false, true)
  }

  /** All way-points of a file in the order in which they are numbered. */
  function Vertices(f: Rndf.File): seq<Vertex> {
    RoadVertices(f.segments) + ParkingVertices(f.zones) + PerimeterVertices(f.zones)
  }

  /** The node of vertex i; its index is kept in 16 bits. */
  function NodeOf(v: Vertex, i: nat): Node {
    Node(MapXY(0.0, 0.0), v.id, i % INDEX_LIMIT, false, v.isPerimeter, v.isSpot, false, false)
  }

  /** The map that numbering builds: a repeated identifier replaces the earlier node. */
  function Indexed(vs: seq<Vertex>): IdMap {
    if vs == [] then map[]
    else
      var n := |vs| - 1;
      Indexed(vs[..n])[vs[n].id := NodeOf(vs[n], n)]
  }

  ghost predicate Distinct(vs: seq<Vertex>) {
    forall i, j :: 0 <= i < j < |vs| ==> vs[i].id != vs[j].id
  }

  lemma {:induction false} IndexedNode(vs: seq<Vertex>, id: ElementId)
    requires id in Indexed(vs)
    ensures Numbered(vs, Indexed(vs)[id], id)
  {
    var n := |vs| - 1;
    if id == vs[n].id {
      assert Indexed(vs)[id] == NodeOf(vs[n], n);
    } else {
      IndexedNode(vs[..n], id);
      NumberedLonger(vs, n, Indexed(vs[..n])[id], id);
    }
  }

  lemma {:induction false} IndexedHas(vs: seq<Vertex>, i: nat)
    requires i < |vs|
    ensures vs[i].id in Indexed(vs)
  {
    var n := |vs| - 1;
    if i < n { IndexedHas(vs[..n], i); }
  }

  lemma {:induction false} IndexedSize(vs: seq<Vertex>)
    ensures |Indexed(vs)| <= |vs|
  {
    if vs != [] {
      var n := |vs| - 1;
      IndexedSize(vs[..n]);
      InsertSize(Indexed(vs[..n]), vs[n].id, NodeOf(vs[n], n));
    }
  }

  lemma IndexedNodes(vs: seq<Vertex>)
    ensures forall id :: id in Indexed(vs) ==> Numbered(vs, Indexed(vs)[id], id)
    ensures forall i :: 0 <= i < |vs| ==> vs[i].id in Indexed(vs)
    ensures |Indexed(vs)| <= |vs|
  {
    forall id | id in Indexed(vs) ensures Numbered(vs, Indexed(vs)[id], id) { IndexedNode(vs, id); }
    forall i | 0 <= i < |vs| ensures vs[i].id in Indexed(vs) { IndexedHas(vs, i); }
    IndexedSize(vs);
  }

  /** The node is that of some vertex with the identifier. */
  ghost predicate Numbered(vs: seq<Vertex>, node: Node, id: ElementId) {
    exists i: nat :: i < |vs| && vs[i].id == id && node == NodeOf(vs[i], i)
  }

  lemma NumberedLonger(vs: seq<Vertex>, n: nat, node: Node, id: ElementId)
    requires n <= |vs| && Numbered(vs[..n], node, id)
    ensures Numbered(vs, node, id)
  {
    var i: nat :| i < n && vs[..n][i].id == id && node == NodeOf(vs[..n][i], i);
    assert vs[i].id == id;
  }

  lemma InsertSize(m: IdMap, id: ElementId, node: Node)
    ensures |m[id := node]| == if id in m then |m| else |m| + 1
  {
    if id in m {
      assert m[id := node].Keys == m.Keys;
      SizeIsKeys(m);
      SizeIsKeys(m[id := node]);
    } else {
      assert m[id := node].Keys == m.Keys + {id};
      SizeIsKeys(m);
      SizeIsKeys(m[id := node]);
    }
  }

  lemma SizeIsKeys(m: IdMap)
    ensures |m| == |m.Keys|
  {
  }

  /** With distinct identifiers every vertex keeps its own number. */
  lemma {:induction false} DistinctNumbers(vs: seq<Vertex>)
    requires Distinct(vs)
    ensures |Indexed(vs)| == |vs|
    ensures forall i :: 0 <= i < |vs| ==> vs[i].id in Indexed(vs) && Indexed(vs)[vs[i].id] == NodeOf(vs[i], i)
  {
    if vs != [] {
      var n := |vs| - 1;
      DistinctNumbers(vs[..n]);
      IndexedNodes(vs[..n]);
      assert vs[n].id !in Indexed(vs[..n]);
      InsertSize(Indexed(vs[..n]), vs[n].id, NodeOf(vs[n], n));
      forall i | 0 <= i < |vs| ensures vs[i].id in Indexed(vs) && Indexed(vs)[vs[i].id] == NodeOf(vs[i], i) {
        if i < n { assert vs[..n][i] == vs[i]; }
      }
    }
  }

  /** A repeated identifier leaves fewer nodes than numbers. */
  lemma {:induction false} RepeatedNumbers(vs: seq<Vertex>)
    requires !Distinct(vs)
    ensures |Indexed(vs)| < |vs|
  {
    var n := |vs| - 1;
    IndexedNodes(vs[..n]);
    InsertSize(Indexed(vs[..n]), vs[n].id, NodeOf(vs[n], n));
    if Distinct(vs[..n]) {
      var i, j :| 0 <= i < j < |vs| && vs[i].id == vs[j].id;
      assert j < n ==> vs[..n][i].id != vs[..n][j].id;
      assert vs[..n][i].id in Indexed(vs[..n]);
    } else {
      RepeatedNumbers(vs[..n]);
    }
  }

  // ---------------------------------------------------------------- populating the graph

  /** An iteration over the map: every identifier once. */
  ghost predicate Enumerates(order: seq<ElementId>, m: IdMap) {
    && |order| == |m|
    && (forall i, j :: 0 <= i < j < |order| ==> order[i] != order[j])
    && (forall id :: id in order <==> id in m)
  }

  /** The node with index i stands at position i. */
  ghost predicate Placed(nodes: seq<Node>) { forall i :: 0 <= i < |nodes| ==> nodes[i].index == i }

  const CLEAR_NODE := Node(MapXY(0.0, 0.0), NULL_ID, 0, false, false, false, false, false)

  /** Every index of the map is a position of an array of the map's size. */
  ghost predicate Fits(m: IdMap) { forall id :: id in m ==> m[id].index < |m| }

  ghost predicate Injective(m: IdMap) {
    forall a, b :: a in m && b in m && a != b ==> m[a].index != m[b].index
  }

  /** The maps differ at most in the way-point flags that are set after numbering. */
  ghost predicate SameNumbers(m: IdMap, m': IdMap) {
    && m.Keys == m'.Keys
    && forall id :: id in m ==> m'[id].id == m[id].id && m'[id].index == m[id].index
                                && m'[id].isSpot == m[id].isSpot && m'[id].isPerimeter == m[id].isPerimeter
  }

  lemma SameSize(m: IdMap, m': IdMap)
    requires SameNumbers(m, m')
    ensures |m| == |m'| && (Fits(m) <==> Fits(m')) && (Injective(m) <==> Injective(m'))
  {
    SizeIsKeys(m);
    SizeIsKeys(m');
    assert forall id :: id in m <==> id in m';
  }

  lemma NumberOf(vs: seq<Vertex>, id: ElementId) returns (i: nat)
    requires Distinct(vs) && |vs| <= INDEX_LIMIT && id in Indexed(vs)
    ensures i < |vs| && vs[i].id == id && Indexed(vs)[id] == NodeOf(vs[i], i) && Indexed(vs)[id].index == i
  {
    IndexedNode(vs, id);
    i :| i < |vs| && vs[i].id == id && Indexed(vs)[id] == NodeOf(vs[i], i);
  }

  lemma DistinctFits(vs: seq<Vertex>)
    requires Distinct(vs) && |vs| <= INDEX_LIMIT
    ensures Fits(Indexed(vs)) && Injective(Indexed(vs))
  {
    var m := Indexed(vs);
    forall a, b | a in m && b in m && a != b ensures m[a].index != m[b].index {
      var i := NumberOf(vs, a);
      var j := NumberOf(vs, b);
    }
    DistinctNumbers(vs);
    forall a | a in m ensures m[a].index < |m| {
      var i := NumberOf(vs, a);
    }
  }

  /** The numbers fit an array of the nodes exactly when no identifier is repeated. */
  lemma FitsIffDistinct(vs: seq<Vertex>)
    requires |vs| <= INDEX_LIMIT
    ensures Fits(Indexed(vs)) <==> Distinct(vs)
  {
    if Distinct(vs) {
      DistinctFits(vs);
    } else {
      RepeatedNumbers(vs);
      var last := vs[|vs| - 1];
      assert last.id in Indexed(vs) && Indexed(vs)[last.id] == NodeOf(last, |vs| - 1);
    }
  }

  /** Copy the nodes to an array; fails where the copy would run past its end. */
  method Populate(m: IdMap, order: seq<ElementId>) returns (ok: bool, nodes: array<Node>)
    requires Enumerates(order, m)
    ensures ok <==> Fits(m)
    ensures fresh(nodes) && nodes.Length == |m|
    ensures ok && Injective(m) ==> forall id :: id in m ==> nodes[m[id].index] == m[id]
  {
    nodes := new Node[|m|](_ => CLEAR_NODE);
    for k := 0 to |order|
      invariant forall i :: 0 <= i < k ==> m[order[i]].index < |m|
      invariant Injective(m) ==> forall i :: 0 <= i < k ==> nodes[m[order[i]].index] == m[order[i]]
    {
      var node := m[order[k]];
      if node.index >= |m| {
        assert order[k] in m;
        return false, nodes;
      }
      nodes[node.index] := node;
    }
    ok := true;
  }

  /** Position i holds the node of vertex i, which carries index i. */
  ghost predicate HoldsVertex(nodes: seq<Node>, vs: seq<Vertex>, i: nat)
    requires i < |vs|
  {
    && i < |nodes| && nodes[i].index == i && nodes[i].id == vs[i].id
    && nodes[i].isSpot == vs[i].isSpot && nodes[i].isPerimeter == vs[i].isPerimeter
  }

  ghost predicate HoldsVertices(nodes: seq<Node>, vs: seq<Vertex>) {
    |nodes| == |vs| && forall i: nat :: i < |vs| ==> HoldsVertex(nodes, vs, i)
  }

  /**
   * The graph's nodes. With at most 65536 way-points, populating stays within the array exactly
   * when their identifiers are distinct, and then every node stands at its index.
   */
  method PopulateNodes(vs: seq<Vertex>, m: IdMap, order: seq<ElementId>) returns (ok: bool, nodes: seq<Node>)
    requires SameNumbers(Indexed(vs), m) && Enumerates(order, m)
    ensures |vs| <= INDEX_LIMIT ==> (ok <==> Distinct(vs))
    ensures |vs| <= INDEX_LIMIT && ok ==> HoldsVertices(nodes, vs)
    ensures |vs| <= INDEX_LIMIT && ok ==> forall id :: id in m ==> m[id].index < |nodes| && nodes[m[id].index] == m[id]
    ensures |vs| > INDEX_LIMIT && Distinct(vs) ==> !Placed(nodes)
  {
    SameSize(Indexed(vs), m);
    var a: array<Node>;
    ok, a := Populate(m, order);
    nodes := a[..];
    if |vs| <= INDEX_LIMIT {
      FitsIffDistinct(vs);
      if ok { PopulatedNodes(vs, m, nodes); }
    } else if Distinct(vs) {
      DistinctNumbers(vs);
      assert nodes[INDEX_LIMIT].index != INDEX_LIMIT;
    }
  }

  lemma PopulatedNodes(vs: seq<Vertex>, m: IdMap, nodes: seq<Node>)
    requires SameNumbers(Indexed(vs), m) && Distinct(vs) && |vs| <= INDEX_LIMIT && |nodes| == |m| && Fits(m)
    requires Injective(m) ==> forall id :: id in m ==> nodes[m[id].index] == m[id]
    ensures HoldsVertices(nodes, vs)
    ensures forall id :: id in m ==> nodes[m[id].index] == m[id]
  {
    DistinctFits(vs);
    SameSize(Indexed(vs), m);
    SizeOfDistinct(vs);
    forall i: nat | i < |vs| ensures HoldsVertex(nodes, vs, i) {
      VertexNumber(vs, i);
      var id := vs[i].id;
      assert id in m && m[id].index == i;
      assert nodes[m[id].index] == m[id];
    }
    assert forall i: nat :: i < |vs| ==> HoldsVertex(nodes, vs, i);
  }

  lemma SizeOfDistinct(vs: seq<Vertex>)
    requires Distinct(vs)
    ensures |Indexed(vs)| == |vs|
  {
    DistinctNumbers(vs);
  }

  lemma VertexNumber(vs: seq<Vertex>, i: nat)
    requires Distinct(vs) && |vs| <= INDEX_LIMIT && i < |vs|
    ensures vs[i].id in Indexed(vs) && Indexed(vs)[vs[i].id] == NodeOf(vs[i], i) && NodeOf(vs[i], i).index == i
  {
    DistinctNumbers(vs);
  }

  /** A graph that holds distinct vertices is placed and has unique identifiers. */
  lemma HeldIsPlaced(nodes: seq<Node>, vs: seq<Vertex>)
    requires HoldsVertices(nodes, vs) && Distinct(vs)
    ensures Placed(nodes) && UniqueIds(nodes)
  {
    forall i | 0 <= i < |nodes| ensures nodes[i].index == i {
      assert HoldsVertex(nodes, vs, i);
    }
    forall i, j | 0 <= i < j < |nodes| ensures nodes[i].id != nodes[j].id {
      assert HoldsVertex(nodes, vs, i) && HoldsVertex(nodes, vs, j);
    }
  }

  // ---------------------------------------------------------------- looking nodes up

  /** Where nodes stand at their index, searching for an index is plain indexing. */
  lemma {:induction false} LookupIsIndexing(nodes: seq<Node>, i: int)
    requires Placed(nodes)
    ensures NodeAt(nodes, i) == if 0 <= i < |nodes| then Some(nodes[i]) else None
  {
    var r := NodeAt(nodes, i);
    assert 0 <= i < |nodes| ==> nodes[i] in nodes;
    if r.Some? {
      var k :| 0 <= k < |nodes| && nodes[k] == r.value;
      assert k == i;
    }
  }

  // ---------------------------------------------------------------- well-formed graphs

  ghost predicate InRange(edges: seq<Edge>, n: nat) { forall e :: e in edges ==> e.start < n && e.end < n }

  /** The graph that the planners rely on. */
  ghost predicate WellFormed(net: Network) { Placed(net.nodes) && InRange(net.edges, |net.nodes|) }

  lemma WellFormedJoins(net: Network)
    requires WellFormed(net)
    ensures EdgesJoinNodes(net)
  {
    forall e | e in net.edges ensures NodeAt(net.nodes, e.start).Some? && NodeAt(net.nodes, e.end).Some? {
      LookupIsIndexing(net.nodes, e.start);
      LookupIsIndexing(net.nodes, e.end);
    }
  }
}
