/** A network on which the search must miss the best path, by as close to the penalty as one likes. */
module SearchSlack {
  import opened WayPoints
  import opened GraphSearch

  // A lane with three way-points 1 m apart and a start 1 m before them in another segment. A slow
  // edge leads from the start to the second way-point, which precedes the goal; the search closes it
  // by that edge before it closes its lane predecessor.

  function LaneNode(seg: int, pt: int, index: Index): Node {
    Node(MapXY(index as real, 0.0), ElementId(seg, 1, pt), index, false, false, false, false, false)
  }

  function Road(start: Index, end: Index, distance: real, speedMax: real): Edge {
    Edge(start, end, distance, speedMax, 0.0, false, false, false)
  }

  const BEFORE := Road(0, 1, 1.0, 1.0)      // to the first way-point of the lane
  const ALONG := Road(1, 2, 1.0, 1.0)
  const LAST := Road(2, 3, 1.0, 1.0)

  /** The direct edge takes 2 + d seconds for its 2 m. */
  function Direct(d: real): Edge
    requires 0.0 < d < 10.0
  {
    Road(0, 2, 2.0, 2.0 / (2.0 + d))
  }

  const NODES := [LaneNode(2, 1, 0), LaneNode(1, 1, 1), LaneNode(1, 2, 2), LaneNode(1, 3, 3)]

  function Detour(d: real): Network
    requires 0.0 < d < 10.0
  {
    Network(NODES, [BEFORE, Direct(d), ALONG, LAST])
  }

  /** The distance of points on the road, which is straight. */
  function Line(): Metric { (a: MapXY, b: MapXY) => if a.x < b.x then b.x - a.x else a.x - b.x }

  lemma Nodes()
    ensures NodeAt(NODES, 0) == Some(NODES[0]) && NodeAt(NODES, 1) == Some(NODES[1])
    ensures NodeAt(NODES, 2) == Some(NODES[2]) && NodeAt(NODES, 3) == Some(NODES[3])
    ensures NodeAt(NODES, NO_PREVIOUS) == None
  {
    var a, b, c := NODES[1..], NODES[2..], NODES[3..];
    assert a[1..] == b && b[1..] == c && c[1..] == [];
    assert NodeAt(c, 3) == Some(NODES[3]) && NodeAt(b, 2) == Some(NODES[2]) && NodeAt(a, 1) == Some(NODES[1]);
    assert NodeAt(b, 3) == NodeAt(c, 3) && NodeAt(a, 3) == NodeAt(b, 3) && NodeAt(a, 2) == NodeAt(b, 2);
    assert NodeAt(c, NO_PREVIOUS) == None && NodeAt(b, NO_PREVIOUS) == None && NodeAt(a, NO_PREVIOUS) == None;
  }

  lemma SlowTime(d: real)
    requires 0.0 < d < 10.0
    ensures 0.1 < 2.0 / (2.0 + d) < 1.0 && 2.0 / (2.0 / (2.0 + d)) == 2.0 + d
  {
    var v := 2.0 / (2.0 + d);
    assert v * (2.0 + d) == 2.0;
  }

  lemma Costs(d: real)
    requires 0.0 < d < 10.0
    ensures TimeAlong(Detour(d), BEFORE, 1.0) == 11.0 && TimeAlong(Detour(d), Direct(d), 1.0) == 12.0 + d
    ensures TimeAlong(Detour(d), ALONG, 1.0) == 1.0 && TimeAlong(Detour(d), LAST, 1.0) == 1.0
    ensures Heuristic(Detour(d), Line(), 1, 3, 1.0) == 12.0 && Heuristic(Detour(d), Line(), 2, 3, 1.0) == 1.0
  {
    Nodes();
    SlowTime(d);
  }

  lemma EdgesJoin(d: real)
    requires 0.0 < d < 10.0
    ensures EdgesJoinNodes(Detour(d))
  {
    Nodes();
  }

  lemma NoZone(d: real, prev: int, e: Edge)
    requires 0.0 < d < 10.0 && e in Detour(d).edges
    ensures !TurnsAround(Detour(d), prev, e)
  {
    Nodes();
  }

  lemma LineIsMetric(net: Network)
    requires forall n :: n in net.nodes ==> 0.0 <= n.xy.x <= 3.0
    ensures MetricOn(net, Line())
  {}

  lemma OnTheRoad(n: Node)
    requires n in NODES
    ensures 0.0 <= n.xy.x <= 3.0
  {}

  lemma DistinctIds()
    ensures UniqueIds(NODES)
  {}

  /** Every edge is as long as its ends are apart. */
  lemma RealisticRoads(d: real, e: Edge)
    requires 0.0 < d < 10.0 && e in Detour(d).edges
    ensures RealisticEdge(Detour(d), Line(), e)
  {
    Nodes();
    RoadLengths(d, e);
    RealisticBetween(Detour(d), e, NODES[e.start], NODES[e.end]);
  }

  lemma RealisticBetween(net: Network, e: Edge, a: Node, b: Node)
    requires NodeAt(net.nodes, e.start) == Some(a) && NodeAt(net.nodes, e.end) == Some(b)
    requires a.xy.x <= b.xy.x && e.distance == b.xy.x - a.xy.x && e.speedMax > 0.1
    ensures RealisticEdge(net, Line(), e)
  {}

  lemma RoadLengths(d: real, e: Edge)
    requires 0.0 < d < 10.0 && e in Detour(d).edges
    ensures e.start < e.end <= 3 && e.distance == (e.end - e.start) as real && e.speedMax > 0.1
  {
    SlowTime(d);
  }

  /** The network meets everything that the search asks for. */
  lemma Ordinary(d: real)
    requires 0.0 < d < 10.0
    ensures Searchable(Detour(d), 0) && Realistic(Detour(d), Line(), 1.0)
  {
    var net := Detour(d);
    EdgesJoin(d);
    forall n | n in net.nodes ensures 0.0 <= n.xy.x <= 3.0 { OnTheRoad(n); }
    LineIsMetric(net);
    DistinctIds();
    forall e, prev | e in net.edges ensures !TurnsAround(net, prev, e) { NoZone(d, prev, e); }
    forall e | e in net.edges ensures RealisticEdge(net, Line(), e) { RealisticRoads(d, e); }
  }

  lemma Estimates(d: real)
    requires 0.0 < d < 10.0
    ensures Seed(Detour(d), Line(), 3, 1.0, Direct(d)).estimate == 13.0 + d
    ensures Seed(Detour(d), Line(), 3, 1.0, BEFORE).estimate == 23.0
  {
    Costs(d);
  }

  lemma DirectOffered(d: real)
    requires 0.0 < d < 10.0
    ensures Offered(Detour(d), 0, NO_PREVIOUS, Direct(d))
  {
    assert Direct(d) == Detour(d).edges[1];
    NoZone(d, NO_PREVIOUS, Direct(d));
    EdgesJoin(d);
    FollowsOffered(Detour(d), 0, NO_PREVIOUS, Direct(d));
  }

  lemma FirstIsDirect(d: real, f: Edge)
    requires 0.0 < d < 10.0 && IsFirst(Detour(d), Line(), 0, 3, 1.0, f)
    ensures f == Direct(d)
  {
    DirectOffered(d);
    OfferedFollows(Detour(d), 0, NO_PREVIOUS, f);
    Estimates(d);
    OutOfStart(d, f);
  }

  lemma OutOfStart(d: real, f: Edge)
    requires 0.0 < d < 10.0 && f in Detour(d).edges && f.start == 0
    ensures f == BEFORE || f == Direct(d)
  {}

  lemma EndsWithLast(d: real, path: seq<Edge>)
    requires 0.0 < d < 10.0 && Walk(Detour(d), 0, path, 3)
    ensures |path| >= 2 && Last(path) == LAST && Front(path) != [] && Last(Front(path)).end == 2
  {
    assert Last(path) in Detour(d).edges;
  }

  /**
   * Whatever order equal entries come in, the search returns the direct edge and the last one, at a
   * cost of 13 + d, although going along the lane costs 13: it is off by d, for any d below 10.
   */
  lemma DearerPathForced(d: real, path: seq<Edge>)
    requires 0.0 < d < 10.0
    requires Walk(Detour(d), 0, path, 3) && Decided(Detour(d), Line(), 0, 3, 1.0, path)
    ensures path == [Direct(d), LAST] && PathCost(Detour(d), path, 1.0) == 13.0 + d
    ensures Walk(Detour(d), 0, [BEFORE, ALONG, LAST], 3) && PathCost(Detour(d), [BEFORE, ALONG, LAST], 1.0) == 13.0
  {
    OnlyTwoEdges(d, path);
    DirectCost(d);
    BestWalk(d);
  }

  lemma OnlyTwoEdges(d: real, path: seq<Edge>)
    requires 0.0 < d < 10.0
    requires Walk(Detour(d), 0, path, 3) && Decided(Detour(d), Line(), 0, 3, 1.0, path)
    ensures path == [Direct(d), LAST]
  {
    EndsWithLast(d, path);
    var f :| IsFirst(Detour(d), Line(), 0, 3, 1.0, f) && ViaFirst(path, f);
    FirstIsDirect(d, f);
    ThroughDirect(path, f);
  }

  lemma ThroughDirect(path: seq<Edge>, f: Edge)
    requires |path| >= 2 && Last(path) == LAST && Last(Front(path)).end == 2 == f.end && ViaFirst(path, f)
    ensures path == [f, LAST]
  {
    var k := |path| - 2;
    assert path[k] == Last(Front(path));
    assert k == 0;
  }

  lemma PairCost(net: Network, a: Edge, b: Edge, limit: real)
    ensures PathCost(net, [a, b], limit) == TimeAlong(net, a, limit) + TimeAlong(net, b, limit)
  {
    assert Front([a, b]) == [a] && Front([a]) == [];
    assert PathCost(net, [a], limit) == PathCost(net, [], limit) + TimeAlong(net, a, limit);
  }

  lemma DirectCost(d: real)
    requires 0.0 < d < 10.0
    ensures PathCost(Detour(d), [Direct(d), LAST], 1.0) == 13.0 + d
  {
    Costs(d);
    PairCost(Detour(d), Direct(d), LAST, 1.0);
  }

  lemma BestWalk(d: real)
    requires 0.0 < d < 10.0
    ensures Walk(Detour(d), 0, [BEFORE, ALONG, LAST], 3) && PathCost(Detour(d), [BEFORE, ALONG, LAST], 1.0) == 13.0
  {
    var net := Detour(d);
    Costs(d);
    assert BEFORE == net.edges[0] && ALONG == net.edges[2] && LAST == net.edges[3];
    ThreeEdges(net, BEFORE, ALONG, LAST);
    TripleCost(net, BEFORE, ALONG, LAST, 1.0);
  }

  lemma TripleCost(net: Network, a: Edge, b: Edge, c: Edge, limit: real)
    ensures PathCost(net, [a, b, c], limit) == TimeAlong(net, a, limit) + TimeAlong(net, b, limit) + TimeAlong(net, c, limit)
  {
    PairCost(net, a, b, limit);
    assert Front([a, b, c]) == [a, b];
  }

  lemma ThreeEdges(net: Network, a: Edge, b: Edge, c: Edge)
    requires a in net.edges && b in net.edges && c in net.edges && !a.blocked && !b.blocked && !c.blocked
    requires a.end == b.start && b.end == c.start
    ensures Walk(net, a.start, [a, b, c], c.end)
  {
    assert Front([a, b, c]) == [a, b] && Front([a, b]) == [a] && Front([a]) == [];
    assert Walk(net, a.start, [], a.start) && Walk(net, a.start, [a], a.end) && Walk(net, a.start, [a, b], b.end);
  }
}
