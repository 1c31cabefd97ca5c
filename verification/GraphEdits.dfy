/** Later edits of the graph: implicit lane-change edges and blockages keep it well formed. */
module GraphEdits {
  import opened WayPoints
  import opened RoadGraph
  import opened RndfGraph
  import Blockage

  const FLT_MAX := 340282346638528859811704183484516925440.0
  const LEFT_DISTANCE := 30.0
  const RIGHT_DISTANCE := 25.0
  const IMPLICIT_SPEED := 6.0

  type Metric = (MapXY, MapXY) -> real

  predicate Special(n: Node) { n.isStop || n.isPerimeter || n.isSpot }

  /** Node j lies in the lane beside that of node i: the one before for -1, after for 1. */
  predicate Beside(nodes: seq<Node>, i: int, j: int, side: int)
    requires 0 <= i < |nodes|
  {
    0 <= j < |nodes| && i != j && nodes[i].id.seg == nodes[j].id.seg && nodes[i].id.lane + side == nodes[j].id.lane
  }

  function Gap(nodes: seq<Node>, metric: Metric, i: nat, j: nat): real
    requires i < |nodes| && j < |nodes|
  {
    metric(nodes[i].xy, nodes[j].xy)
  }

  /** Distances are those of real way-points. */
  ghost predicate Measured(nodes: seq<Node>, metric: Metric) {
    forall i: nat, j: nat :: i < |nodes| && j < |nodes| ==> 0.0 <= Gap(nodes, metric, i, j) < FLT_MAX
  }

  /** The first of the nearest nodes of the left lane, among the first ones of the array. */
  ghost predicate IsNearestLeft(nodes: seq<Node>, metric: Metric, i: nat, upto: int, r: int)
    requires i < |nodes| && upto <= |nodes|
  {
    if r == -1 then forall j :: 0 <= j < upto && Beside(nodes, i, j, -1) ==> Gap(nodes, metric, i, j) >= FLT_MAX
    else
      && r < upto && Beside(nodes, i, r, -1)
      && (forall j :: 0 <= j < upto && Beside(nodes, i, j, -1) ==> Gap(nodes, metric, i, r) <= Gap(nodes, metric, i, j))
      && (forall j :: 0 <= j < r && Beside(nodes, i, j, -1) ==> Gap(nodes, metric, i, r) < Gap(nodes, metric, i, j))
  }

  /** The left neighbour that a search through the first n nodes settles on; -1 if none. */
  function LeftChoice(nodes: seq<Node>, metric: Metric, i: nat, n: nat): (r: int)
    requires i < |nodes| && n <= |nodes|
    ensures -1 <= r < n
  {
    if n == 0 then -1
    else
      var j, r := n - 1, LeftChoice(nodes, metric, i, n - 1);
      if Beside(nodes, i, j, -1) && Gap(nodes, metric, i, j) < (if r == -1 then FLT_MAX else Gap(nodes, metric, i, r)) then j else r
  }

  lemma {:induction false} LeftChoiceMeans(nodes: seq<Node>, metric: Metric, i: nat, n: nat)
    requires i < |nodes| && n <= |nodes|
    ensures IsNearestLeft(nodes, metric, i, n, LeftChoice(nodes, metric, i, n))
  {
    if n > 0 { LeftChoiceMeans(nodes, metric, i, n - 1); }
  }

  method NearestLeft(nodes: seq<Node>, metric: Metric, i: nat) returns (r: int)
    requires i < |nodes|
    ensures r == LeftChoice(nodes, metric, i, |nodes|) && IsNearestLeft(nodes, metric, i, |nodes|, r)
  {
    var least: real := FLT_MAX;
    r := -1;
    for j := 0 to |nodes|
      invariant r == LeftChoice(nodes, metric, i, j)
      invariant least == if r == -1 then FLT_MAX else Gap(nodes, metric, i, r)
    {
      if Beside(nodes, i, j, -1) {
        var d := Gap(nodes, metric, i, j);
        if d < least { least, r := d, j; }
      }
    }
    LeftChoiceMeans(nodes, metric, i, |nodes|);
  }

  /**
   * The choice in the right lane is not the nearest: the comparison result is stored as the
   * distance. It is the first node of the lane, unless a later one is at least 1 m away; then it
   * is the first such.
   */
  ghost predicate IsRightChoice(nodes: seq<Node>, metric: Metric, i: nat, upto: int, r: int)
    requires i < |nodes| && upto <= |nodes|
  {
    if r == -1 then forall j :: 0 <= j < upto ==> !Beside(nodes, i, j, 1)
    else
      && r < upto && Beside(nodes, i, r, 1)
      && (IsFirstBeside(nodes, i, r)
          || exists f :: 0 <= f < r && IsFirstBeside(nodes, i, f) && Gap(nodes, metric, i, r) >= 1.0
                         && forall j :: f < j < r && Beside(nodes, i, j, 1) ==> Gap(nodes, metric, i, j) < 1.0)
      && (IsFirstBeside(nodes, i, r) ==>
            forall j :: r < j < upto && Beside(nodes, i, j, 1) ==> Gap(nodes, metric, i, j) < 1.0)
  }

  predicate IsFirstBeside(nodes: seq<Node>, i: nat, f: int)
    requires i < |nodes|
  {
    Beside(nodes, i, f, 1) && forall j :: 0 <= j < f ==> !Beside(nodes, i, j, 1)
  }

  /** The right neighbour that a search through the first n nodes settles on; -1 if none. */
  function RightSearch(nodes: seq<Node>, metric: Metric, i: nat, n: nat): (r: int)
    requires i < |nodes| && n <= |nodes|
    ensures -1 <= r < n
  {
    if n == 0 then -1
    else
      var j, r := n - 1, RightSearch(nodes, metric, i, n - 1);
      if !Beside(nodes, i, j, 1) then r
      else if r == -1 then j
      else if IsFirstBeside(nodes, i, r) && Gap(nodes, metric, i, j) >= 1.0 then j else r
  }

  lemma {:induction false} RightSearchMeans(nodes: seq<Node>, metric: Metric, i: nat, n: nat)
    requires i < |nodes| && n <= |nodes|
    ensures IsRightChoice(nodes, metric, i, n, RightSearch(nodes, metric, i, n))
  {
    if n > 0 { RightSearchMeans(nodes, metric, i, n - 1); }
  }

  method RightChoice(nodes: seq<Node>, metric: Metric, i: nat) returns (r: int)
    requires i < |nodes| && Measured(nodes, metric)
    ensures r == RightSearch(nodes, metric, i, |nodes|) && IsRightChoice(nodes, metric, i, |nodes|, r)
  {
    var least: real := FLT_MAX;
    r := -1;
    for j := 0 to |nodes|
      invariant r == RightSearch(nodes, metric, i, j) && IsRightChoice(nodes, metric, i, j, r)
      invariant least == if r == -1 then FLT_MAX else if IsFirstBeside(nodes, i, r) then 1.0 else 0.0
    {
      RightSearchMeans(nodes, metric, i, j + 1);
      if Beside(nodes, i, j, 1) {
        assert 0.0 <= Gap(nodes, metric, i, j) < FLT_MAX;
        var d: real := if Gap(nodes, metric, i, j) < least then 1.0 else 0.0;
        if d < least { least, r := d, j; }
      }
    }
  }

  /** No node of the lane on the right is nearer than node r. */
  ghost predicate NearestRight(nodes: seq<Node>, metric: Metric, i: nat, r: int)
    requires i < |nodes|
  {
    Beside(nodes, i, r, 1) && forall j :: Beside(nodes, i, j, 1) ==> Gap(nodes, metric, i, r) <= Gap(nodes, metric, i, j)
  }

  /** Node s is the second of the lane on the right, f being the first. */
  predicate IsSecondBeside(nodes: seq<Node>, i: nat, f: int, s: int)
    requires i < |nodes|
  {
    f < s && Beside(nodes, i, s, 1) && forall j :: f < j < s ==> !Beside(nodes, i, j, 1)
  }

  /**
   * When the right-hand choice is the nearest after all: all later nodes of the lane are within
   * 1 m and the first is nearest, or the second is at least 1 m away and nearest.
   */
  lemma RightIsNearestExactly(nodes: seq<Node>, metric: Metric, i: nat, f: int)
    requires i < |nodes| && IsFirstBeside(nodes, i, f)
    ensures NearestRight(nodes, metric, i, RightSearch(nodes, metric, i, |nodes|)) <==>
      if forall j :: f < j && Beside(nodes, i, j, 1) ==> Gap(nodes, metric, i, j) < 1.0
      then NearestRight(nodes, metric, i, f)
      else exists s :: IsSecondBeside(nodes, i, f, s) && Gap(nodes, metric, i, s) >= 1.0 && NearestRight(nodes, metric, i, s)
  {
    var r := RightSearch(nodes, metric, i, |nodes|);
    RightSearchMeans(nodes, metric, i, |nodes|);
    if r == f { ChosenFirst(nodes, metric, i, f); } else { ChosenLater(nodes, metric, i, f, r); }
  }

  lemma ChosenFirst(nodes: seq<Node>, metric: Metric, i: nat, f: int)
    requires i < |nodes| && IsFirstBeside(nodes, i, f) && IsRightChoice(nodes, metric, i, |nodes|, f)
    ensures forall j :: f < j && Beside(nodes, i, j, 1) ==> Gap(nodes, metric, i, j) < 1.0
  {}

  lemma ChosenLater(nodes: seq<Node>, metric: Metric, i: nat, f: int, r: int)
    requires i < |nodes| && IsFirstBeside(nodes, i, f) && IsRightChoice(nodes, metric, i, |nodes|, r) && r != f
    ensures f < r && Beside(nodes, i, r, 1) && Gap(nodes, metric, i, r) >= 1.0
    ensures NearestRight(nodes, metric, i, r) ==> IsSecondBeside(nodes, i, f, r)
    ensures forall s :: IsSecondBeside(nodes, i, f, s) && Gap(nodes, metric, i, s) >= 1.0 ==> s == r
  {}

  function Distance(p: MapXY, q: MapXY): real { if p.x < q.x then q.x - p.x else p.x - q.x }

  function Point(x: real, lane: int, pt: int, index: Index): Node {
    Node(MapXY(x, 0.0), ElementId(1, lane, pt), index, false, false, false, false, false)
  }

  /** A first node 2 m away and a second one 10 m away: the second is chosen. */
  lemma RightIsNotNearest()
    ensures var nodes := [Point(0.0, 1, 1, 0), Point(2.0, 2, 1, 1), Point(10.0, 2, 2, 2)];
      Measured(nodes, Distance) && RightSearch(nodes, Distance, 0, 3) == 2 && !NearestRight(nodes, Distance, 0, 2)
  {
    var nodes := [Point(0.0, 1, 1, 0), Point(2.0, 2, 1, 1), Point(10.0, 2, 2, 2)];
    assert RightSearch(nodes, Distance, 0, 1) == -1;
    assert RightSearch(nodes, Distance, 0, 2) == 1;
    assert Beside(nodes, 0, 1, 1) && Gap(nodes, Distance, 0, 1) == 2.0;
  }

  function ImplicitEdge(start: Index, end: Index, distance: real): Edge {
    Edge(start, end, distance, IMPLICIT_SPEED, 0.0, false, false, true)
  }

  /** An implicit edge starts at an ordinary lane node and ends in a lane beside it. */
  ghost predicate LaneChange(nodes: seq<Node>, e: Edge) {
    && e.isImplicit && !e.blocked && e.start < |nodes| && e.end < |nodes|
    && !Special(nodes[e.start])
    && ( (Beside(nodes, e.start, e.end, -1) && !Special(nodes[e.end]) && e.distance == LEFT_DISTANCE)
      || (Beside(nodes, e.start, e.end, 1) && e.distance == RIGHT_DISTANCE))
  }

  /** The edges are the old ones followed by lane changes. */
  ghost predicate Extended(nodes: seq<Node>, before: seq<Edge>, after: seq<Edge>) {
    before <= after && forall k :: |before| <= k < |after| ==> LaneChange(nodes, after[k])
  }

  /** The lane changes of the first n nodes. */
  function ImplicitEdges(nodes: seq<Node>, metric: Metric, allowed: (int, int) -> bool, n: nat): seq<Edge>
    requires n <= |nodes| <= INDEX_LIMIT
  {
    if n == 0 then [] else ImplicitEdges(nodes, metric, allowed, n - 1) + NodeChanges(nodes, metric, allowed, n - 1)
  }

  function NodeChanges(nodes: seq<Node>, metric: Metric, allowed: (int, int) -> bool, i: nat): seq<Edge>
    requires i < |nodes| <= INDEX_LIMIT
  {
    LaneChanges(nodes, allowed, i, LeftChoice(nodes, metric, i, |nodes|), RightSearch(nodes, metric, i, |nodes|))
  }

  /**
   * Exactly the lane changes of all nodes are added at the end, with the count kept. A node without
   * a usable neighbour on the left gets none on the right either.
   */
  method FindImplicitEdges(graph: Graph, metric: Metric, allowed: (int, int) -> bool)
    requires graph.Valid() && |graph.nodes| <= INDEX_LIMIT && Measured(graph.nodes, metric)
    modifies graph
    ensures graph.Valid()
    ensures graph.edges == old(graph.edges) + ImplicitEdges(graph.nodes, metric, allowed, |graph.nodes|)
    ensures Extended(graph.nodes, old(graph.edges), graph.edges)
    ensures old(WellFormed(graph.Snapshot())) ==> WellFormed(graph.Snapshot())
  {
    ghost var before := graph.edges;
    AddAllChanges(graph, metric, allowed);
    ImplicitExtends(graph.nodes, before, metric, allowed, |graph.nodes|);
    ExtendedInRange(graph.nodes, before, graph.edges);
  }

  method AddAllChanges(graph: Graph, metric: Metric, allowed: (int, int) -> bool)
    requires graph.Valid() && |graph.nodes| <= INDEX_LIMIT && Measured(graph.nodes, metric)
    modifies graph
    ensures graph.Valid()
    ensures graph.edges == old(graph.edges) + ImplicitEdges(graph.nodes, metric, allowed, |graph.nodes|)
  {
    ghost var before := graph.edges;
    assert before + [] == before;
    for i := 0 to |graph.nodes|
      invariant graph.Valid() && graph.edges == before + ImplicitEdges(graph.nodes, metric, allowed, i)
    {
      ImplicitNext(graph.nodes, before, metric, allowed, i);
      AddLaneChanges(graph, metric, allowed, i);
    }
  }

  lemma ImplicitNext(nodes: seq<Node>, before: seq<Edge>, metric: Metric, allowed: (int, int) -> bool, i: nat)
    requires i < |nodes| <= INDEX_LIMIT
    ensures before + ImplicitEdges(nodes, metric, allowed, i + 1) ==
      before + ImplicitEdges(nodes, metric, allowed, i) + NodeChanges(nodes, metric, allowed, i)
  {
    Regroup(before, ImplicitEdges(nodes, metric, allowed, i), NodeChanges(nodes, metric, allowed, i));
  }

  lemma Regroup(a: seq<Edge>, b: seq<Edge>, c: seq<Edge>)
    ensures (a + b) + c == a + (b + c)
  {}

  lemma {:induction false} ImplicitExtends(
      nodes: seq<Node>, before: seq<Edge>, metric: Metric, allowed: (int, int) -> bool, n: nat)
    requires n <= |nodes| <= INDEX_LIMIT
    ensures Extended(nodes, before, before + ImplicitEdges(nodes, metric, allowed, n))
  {
    if n == 0 {
      assert before + [] == before;
    } else {
      ImplicitExtends(nodes, before, metric, allowed, n - 1);
      var i := n - 1;
      LeftChoiceMeans(nodes, metric, i, |nodes|);
      RightSearchMeans(nodes, metric, i, |nodes|);
      LaneChangesExtend(nodes, before, before + ImplicitEdges(nodes, metric, allowed, i), metric, allowed, i,
                        LeftChoice(nodes, metric, i, |nodes|), RightSearch(nodes, metric, i, |nodes|));
      Regroup(before, ImplicitEdges(nodes, metric, allowed, i), NodeChanges(nodes, metric, allowed, i));
    }
  }

  /** The edges that node i gets, given its choices on both sides. */
  function LaneChanges(nodes: seq<Node>, allowed: (int, int) -> bool, i: nat, left: int, right: int): seq<Edge>
    requires i < |nodes| <= INDEX_LIMIT && -1 <= left < |nodes| && -1 <= right < |nodes|
  {
    if Special(nodes[i]) || left < 0 || Special(nodes[left]) then []
    else
      (if allowed(i, left) then [ImplicitEdge(i, left, LEFT_DISTANCE)] else [])
      + (if right >= 0 && allowed(i, right) then [ImplicitEdge(i, right, RIGHT_DISTANCE)] else [])
  }

  method AddLaneChanges(graph: Graph, metric: Metric, allowed: (int, int) -> bool, i: nat)
    requires graph.Valid() && i < |graph.nodes| <= INDEX_LIMIT && Measured(graph.nodes, metric)
    modifies graph
    ensures graph.Valid()
    ensures graph.edges == old(graph.edges) + NodeChanges(graph.nodes, metric, allowed, i)
  {
    var nodes := graph.nodes;
    var l := NearestLeft(nodes, metric, i);
    var r := RightChoice(nodes, metric, i);
    if Special(nodes[i]) || l < 0 || Special(nodes[l]) { return; }
    if allowed(i, l) { Append(graph, ImplicitEdge(i, l, LEFT_DISTANCE)); }
    if r >= 0 && allowed(i, r) { Append(graph, ImplicitEdge(i, r, RIGHT_DISTANCE)); }
  }

  lemma LaneChangesExtend(nodes: seq<Node>, before: seq<Edge>, after: seq<Edge>, metric: Metric,
                          allowed: (int, int) -> bool, i: nat, left: int, right: int)
    requires i < |nodes| <= INDEX_LIMIT && -1 <= left < |nodes| && -1 <= right < |nodes|
    requires IsNearestLeft(nodes, metric, i, |nodes|, left) && IsRightChoice(nodes, metric, i, |nodes|, right)
    requires Extended(nodes, before, after)
    ensures Extended(nodes, before, after + LaneChanges(nodes, allowed, i, left, right))
  {
    var more := LaneChanges(nodes, allowed, i, left, right);
    assert forall k :: 0 <= k < |more| ==> LaneChange(nodes, more[k]);
  }

  method Append(graph: Graph, e: Edge)
    requires graph.Valid()
    modifies graph
    ensures graph.Valid() && graph.edges == old(graph.edges) + [e]
  {
    graph.edges := graph.edges + [e];
    graph.edgesSize := graph.edgesSize + 1;
  }

  lemma ExtendedInRange(nodes: seq<Node>, before: seq<Edge>, after: seq<Edge>)
    requires Extended(nodes, before, after)
    ensures InRange(before, |nodes|) ==> InRange(after, |nodes|)
  {
    if InRange(before, |nodes|) {
      forall e | e in after ensures e.start < |nodes| && e.end < |nodes| {
        var k :| 0 <= k < |after| && after[k] == e;
        if k < |before| { assert before[k] == e; }
      }
    }
  }

  // ---------------------------------------------------------------- blockages

  lemma {:induction false} UnblockFirstInRange(edges: seq<Edge>, p: Blockage.Ends, n: nat)
    requires InRange(edges, n)
    ensures InRange(Blockage.UnblockFirst(edges, p), n)
  {
    if edges != [] {
      assert edges[0] in edges && forall e :: e in edges[1..] ==> e in edges;
      UnblockFirstInRange(edges[1..], p, n);
    }
  }

  lemma {:induction false} EraseFirstInRange(edges: seq<Edge>, p: Blockage.Ends, n: nat)
    requires InRange(edges, n)
    ensures InRange(Blockage.EraseFirst(edges, p), n)
  {
    if edges != [] {
      assert edges[0] in edges && forall e :: e in edges[1..] ==> e in edges;
      EraseFirstInRange(edges[1..], p, n);
    }
  }

  lemma {:induction false} UnblockAllInRange(edges: seq<Edge>, done: seq<Edge>, n: nat)
    requires InRange(edges, n)
    ensures InRange(Blockage.UnblockAll(edges, done), n)
  {
    if done != [] {
      var k := |done| - 1;
      UnblockAllInRange(edges, done[..k], n);
      UnblockFirstInRange(Blockage.UnblockAll(edges, done[..k]), Blockage.EndsOf(done[k]), n);
    }
  }

  lemma {:induction false} EraseAllInRange(edges: seq<Edge>, done: seq<Edge>, n: nat)
    requires InRange(edges, n)
    ensures InRange(Blockage.EraseAll(edges, done), n)
  {
    if done != [] {
      var k := |done| - 1;
      EraseAllInRange(edges, done[..k], n);
      EraseFirstInRange(Blockage.EraseAll(edges, done[..k]), Blockage.EndsOf(done[k]), n);
    }
  }

  /** The route of a report uses edges of the graph. */
  ghost predicate OpInRange(op: Blockage.Op, n: nat) { op.AddOp? ==> InRange(op.route, n) }

  lemma AddInRange(nodes: seq<Node>, s: Blockage.State, op: Blockage.Op)
    requires |nodes| <= INDEX_LIMIT && op.AddOp? && InRange(s.edges, |nodes|) && OpInRange(op, |nodes|)
    ensures InRange(Blockage.Add(nodes, s, op.id, op.route, op.time).edges, |nodes|)
  {
    var n := |nodes|;
    var target, side := Blockage.LastWithId(nodes, op.id), Blockage.LastWithId(nodes, Blockage.Before(op.id));
    if target >= 0 && op.route != [] {
      var head := op.route[0];
      assert head in op.route;
      var detours := Blockage.Detours(s.edges, target, side, head);
      assert InRange(detours, n);
      var hits := Blockage.BlockHits(s.edges, target, head);
      forall e | e in hits ensures e.start < n && e.end < n {
        var i :| 0 <= i < |hits| && hits[i] == e;
        assert s.edges[i] in s.edges;
      }
    }
  }

  /** Whatever is reported and removed, every edge still joins positions of the node array. */
  lemma {:induction false} BlockagesKeepRange(nodes: seq<Node>, s: Blockage.State, ops: seq<Blockage.Op>)
    requires |nodes| <= INDEX_LIMIT && InRange(s.edges, |nodes|) && forall op :: op in ops ==> OpInRange(op, |nodes|)
    ensures InRange(Blockage.Run(nodes, s, ops).edges, |nodes|)
    decreases |ops|
  {
    if ops != [] {
      var k := |ops| - 1;
      BlockagesKeepRange(nodes, s, ops[..k]);
      var t := Blockage.Run(nodes, s, ops[..k]);
      assert ops[k] in ops;
      match ops[k]
      case AddOp(_, _, _) => AddInRange(nodes, t, ops[k]);
      case PopOp(b) =>
        if b < |t.blocks| {
          UnblockAllInRange(t.edges, t.blocks[b].addedBlocks, |nodes|);
          EraseAllInRange(Blockage.UnblockAll(t.edges, t.blocks[b].addedBlocks), t.blocks[b].addedEdges, |nodes|);
        }
    }
  }

  /** A well-formed graph stays well formed through any run of blockages, so its edges join nodes. */
  lemma BlockagesKeepGraph(net: Network, ops: seq<Blockage.Op>)
    requires WellFormed(net) && |net.nodes| <= INDEX_LIMIT && forall op :: op in ops ==> OpInRange(op, |net.nodes|)
    ensures var after := Network(net.nodes, Blockage.Run(net.nodes, Blockage.State(net.edges, []), ops).edges);
      WellFormed(after) && EdgesJoinNodes(after)
  {
    BlockagesKeepRange(net.nodes, Blockage.State(net.edges, []), ops);
    WellFormedJoins(Network(net.nodes, Blockage.Run(net.nodes, Blockage.State(net.edges, []), ops).edges));
  }
}
