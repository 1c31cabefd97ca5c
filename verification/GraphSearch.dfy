/** A* route search over the way-point graph. */
module GraphSearch {
  import opened WayPoints

  const INFINITE_DISTANCE := 1000000.0
  const FLOAT_MAX := 340282346638528859811704183484516925440.0
  const STOP_PENALTY := 10.0

  /** Straight-line distance between map positions. */
  type Metric = (MapXY, MapXY) -> real

  datatype PossiblePath = PossiblePath(estimate: real, cost: real, path: seq<Edge>)

  predicate SameLaneNext(a: ElementId, b: ElementId) {
    a.seg == b.seg && a.lane == b.lane && b.pt == a.pt + 1
  }

  function Penalty(a: ElementId, b: ElementId): real {
    if SameLaneNext(a, b) then 0.0 else STOP_PENALTY
  }

  predicate InZone(n: Node) { n.isPerimeter || n.isSpot }

  /** Distance used by the heuristic: effectively infinite inside zones. */
  function Straight(metric: Metric, a: Node, b: Node): real {
    if InZone(a) || InZone(b) then INFINITE_DISTANCE else metric(a.xy, b.xy)
  }

  function TimeBetween(metric: Metric, a: Node, b: Node, limit: real): real
    requires limit > 0.0
  {
    Straight(metric, a, b) / limit + Penalty(a.id, b.id)
  }

  function TimeAlong(net: Network, e: Edge, limit: real): real {
    var a, b := NodeAt(net.nodes, e.start), NodeAt(net.nodes, e.end);
    if a.None? || b.None? then INFINITE_DISTANCE else
      var distance := if InZone(a.value) || InZone(b.value) then INFINITE_DISTANCE else e.distance;
      var speed := Min(e.speedMax, limit);
      var time := if NearZero(speed) then INFINITE_DISTANCE else distance / speed;
      time + Penalty(a.value.id, b.value.id)
  }

  function Heuristic(net: Network, metric: Metric, from: Index, goal: Index, limit: real): real
    requires limit > 0.0
  {
    var a, b := NodeAt(net.nodes, from), NodeAt(net.nodes, goal);
    if a.None? || b.None? then FLOAT_MAX else TimeBetween(metric, a.value, b.value, limit)
  }

  /** The turn-around rule: do not enter a zone from a lane just to leave it for a lane. */
  predicate TurnsAround(net: Network, prev: int, e: Edge) {
    var p, f, n := NodeAt(net.nodes, prev), NodeAt(net.nodes, e.start), NodeAt(net.nodes, e.end);
    p.Some? && f.Some? && n.Some?
    && p.value.id.lane != 0 && f.value.id.lane == 0 && n.value.id.lane != 0
    && !p.value.isSpot && !n.value.isSpot
  }

  /** The "no previous node" argument -1, converted to a 16-bit index. */
  const NO_PREVIOUS: int := INDEX_LIMIT - 1

  // ---------------------------------------------------------------- walks

  function Front<T>(s: seq<T>): seq<T> requires s != [] { s[..|s| - 1] }
  function Last<T>(s: seq<T>): T requires s != [] { s[|s| - 1] }

  /** A contiguous sequence of unblocked edges of the network from s to t. */
  ghost predicate Walk(net: Network, s: Index, p: seq<Edge>, t: Index) {
    if p == [] then s == t
    else
      Last(p) in net.edges && !Last(p).blocked && Last(p).end == t && Walk(net, s, Front(p), Last(p).start)
  }

  /** No edge of the path makes a forbidden turn-around after the edge before it. */
  ghost predicate NoTurnAround(net: Network, p: seq<Edge>) {
    forall i :: 0 <= i < |p| ==> !TurnsAround(net, PreviousStart(p, i), p[i])
  }

  ghost function PreviousStart(p: seq<Edge>, i: nat): int requires i <= |p| {
    if i == 0 then NO_PREVIOUS else p[i - 1].start
  }

  function PathCost(net: Network, p: seq<Edge>, limit: real): real {
    if p == [] then 0.0 else PathCost(net, Front(p), limit) + TimeAlong(net, Last(p), limit)
  }

  // ---------------------------------------------------------------- conditions on the graph

  /** No pair of consecutive unblocked edges, and no first edge, is a forbidden turn-around. */
  ghost predicate TurnFree(net: Network, start: Index) {
    && (forall e :: e in net.edges && !e.blocked && e.start == start ==> !TurnsAround(net, NO_PREVIOUS, e))
    && (forall d, e :: d in net.edges && e in net.edges && !d.blocked && !e.blocked && d.end == e.start
          ==> !TurnsAround(net, d.start, e))
  }

  ghost predicate Searchable(net: Network, start: Index) {
    EdgesJoinNodes(net) && TurnFree(net, start)
  }

  /** The edge is followed whenever its start is closed: nothing that leads there makes it a turn-around. */
  ghost predicate Sure(net: Network, start: Index, e: Edge) {
    && (e.start == start ==> !TurnsAround(net, NO_PREVIOUS, e))
    && (forall d :: d in net.edges && !d.blocked && d.end == e.start ==> !TurnsAround(net, d.start, e))
  }

  /** A walk of edges that are always followed. */
  ghost predicate SureWalk(net: Network, s: Index, p: seq<Edge>, t: Index) {
    Walk(net, s, p, t) && forall e :: e in p ==> Sure(net, s, e)
  }

  /** Edges that start at a lane way-point, or that end in a zone, are always followed. */
  lemma OrdinaryIsSure(net: Network, start: Index, e: Edge)
    requires NodeAt(net.nodes, e.start).Some? && NodeAt(net.nodes, e.end).Some?
    requires var a, b := NodeAt(net.nodes, e.start).value, NodeAt(net.nodes, e.end).value;
      a.id.lane != 0 || b.id.lane == 0 || b.isSpot
    ensures Sure(net, start, e)
  {}

  /** On a network without turn-arounds every walk is sure. */
  lemma {:induction false} SearchableWalk(net: Network, start: Index, w: seq<Edge>, t: Index)
    requires Searchable(net, start) && Walk(net, start, w, t)
    ensures SureWalk(net, start, w, t)
  {
    if w != [] {
      SearchableWalk(net, start, Front(w), Last(w).start);
      assert w == Front(w) + [Last(w)];
    }
  }

  lemma FrontIsSure(net: Network, start: Index, w: seq<Edge>, t: Index)
    requires SureWalk(net, start, w, t) && w != []
    ensures SureWalk(net, start, Front(w), Last(w).start) && Sure(net, start, Last(w))
  {
    assert w == Front(w) + [Last(w)];
  }

  ghost predicate MetricOn(net: Network, metric: Metric) {
    && (forall a, b :: a in net.nodes && b in net.nodes ==> 0.0 <= metric(a.xy, b.xy) <= INFINITE_DISTANCE)
    && (forall a, b, c :: a in net.nodes && b in net.nodes && c in net.nodes
          ==> metric(a.xy, c.xy) <= metric(a.xy, b.xy) + metric(b.xy, c.xy))
  }

  /** An edge is no shorter than the straight line between its ends and its speed is positive. */
  ghost predicate RealisticEdge(net: Network, metric: Metric, e: Edge) {
    var a, b := NodeAt(net.nodes, e.start), NodeAt(net.nodes, e.end);
    a.Some? && b.Some? && e.speedMax >= 0.00001 && e.distance >= metric(a.value.xy, b.value.xy)
  }

  ghost predicate Realistic(net: Network, metric: Metric, limit: real) {
    && limit >= 0.00001
    && UniqueIds(net.nodes)
    && MetricOn(net, metric)
    && forall e :: e in net.edges && !e.blocked ==> RealisticEdge(net, metric, e)
  }

  /** The node is the lane predecessor of the goal: the only one whose estimate has no penalty. */
  ghost predicate PrecedesGoal(net: Network, i: Index, goal: Index) {
    var a, g := NodeAt(net.nodes, i), NodeAt(net.nodes, goal);
    a.Some? && g.Some? && SameLaneNext(a.value.id, g.value.id)
  }

  ghost predicate PenalisedEdge(net: Network, e: Edge) {
    var a, b := NodeAt(net.nodes, e.start), NodeAt(net.nodes, e.end);
    a.Some? && b.Some? && !SameLaneNext(a.value.id, b.value.id)
  }

  /**
   * The goal's lane predecessor is missing, is the start, or can be entered only by edges
   * that pay the stopping penalty.
   */
  ghost predicate ExactSearch(net: Network, start: Index, goal: Index) {
    forall e :: e in net.edges && !e.blocked && PrecedesGoal(net, e.end, goal) && e.end != start
      ==> PenalisedEdge(net, e)
  }

  ghost function Slack(net: Network, start: Index, goal: Index): real {
    if ExactSearch(net, start, goal) then 0.0 else STOP_PENALTY
  }

  // ---------------------------------------------------------------- consistency of the heuristic

  /** The heuristic without its penalty term. */
  ghost function Base(net: Network, metric: Metric, i: Index, goal: Index, limit: real): real
    requires limit > 0.0
    requires NodeAt(net.nodes, i).Some? && NodeAt(net.nodes, goal).Some?
  {
    Straight(metric, NodeAt(net.nodes, i).value, NodeAt(net.nodes, goal).value) / limit
  }

  lemma StraightTriangle(net: Network, metric: Metric, a: Node, b: Node, c: Node)
    requires MetricOn(net, metric) && a in net.nodes && b in net.nodes && c in net.nodes
    ensures Straight(metric, a, c) <= Straight(metric, a, b) + Straight(metric, b, c)
    ensures 0.0 <= Straight(metric, a, b)
  {
    assert 0.0 <= metric(a.xy, b.xy) && 0.0 <= metric(b.xy, c.xy) && metric(a.xy, c.xy) <= INFINITE_DISTANCE;
  }

  lemma SlowerIsLonger(d: real, d': real, speed: real, limit: real)
    requires 0.0 <= d' <= d && 0.0 < speed <= limit
    ensures d / speed >= d' / limit
  {
    assert d / speed >= d' / speed;
    var q := d' / speed;
    assert q * speed == d';
    assert q * speed <= q * limit;
    assert d' / limit <= q;
  }

  /** Without its penalty the heuristic drops by no more than an edge costs beyond its penalty. */
  lemma BaseConsistent(net: Network, metric: Metric, e: Edge, goal: Index, limit: real)
    requires Realistic(net, metric, limit) && e in net.edges && !e.blocked
    requires NodeAt(net.nodes, goal).Some?
    ensures NodeAt(net.nodes, e.start).Some? && NodeAt(net.nodes, e.end).Some?
    ensures TimeAlong(net, e, limit)
              >= Base(net, metric, e.start, goal, limit) - Base(net, metric, e.end, goal, limit)
                 + (if PenalisedEdge(net, e) then STOP_PENALTY else 0.0)
  {
    assert RealisticEdge(net, metric, e);
    var a, b, g := NodeAt(net.nodes, e.start).value, NodeAt(net.nodes, e.end).value, NodeAt(net.nodes, goal).value;
    StraightTriangle(net, metric, a, b, g);
    var distance := if InZone(a) || InZone(b) then INFINITE_DISTANCE else e.distance;
    var speed := Min(e.speedMax, limit);
    SlowerIsLonger(distance, Straight(metric, a, b), speed, limit);
    DivideSum(Straight(metric, a, b), Straight(metric, b, g), Straight(metric, a, g), limit);
  }

  lemma DivideSum(x: real, y: real, z: real, limit: real)
    requires limit > 0.0 && z <= x + y
    ensures z / limit <= x / limit + y / limit
  {
    assert (x + y) / limit == x / limit + y / limit;
  }

  lemma HeuristicParts(net: Network, metric: Metric, i: Index, goal: Index, limit: real)
    requires limit > 0.0 && NodeAt(net.nodes, i).Some? && NodeAt(net.nodes, goal).Some?
    ensures Heuristic(net, metric, i, goal, limit)
              == Base(net, metric, i, goal, limit) + (if PrecedesGoal(net, i, goal) then 0.0 else STOP_PENALTY)
  {}

  /** With unique identifiers at most one index precedes the goal. */
  lemma PredecessorUnique(net: Network, i: Index, j: Index, goal: Index)
    requires UniqueIds(net.nodes) && PrecedesGoal(net, i, goal) && PrecedesGoal(net, j, goal)
    ensures i == j
  {
    var a, b := NodeAt(net.nodes, i).value, NodeAt(net.nodes, j).value;
    var x :| 0 <= x < |net.nodes| && net.nodes[x] == a;
    var y :| 0 <= y < |net.nodes| && net.nodes[y] == b;
    assert a.id == b.id;
  }

  /** The search is exact when the goal has no lane predecessor, or when that is the start. */
  lemma ExactWithoutOtherPredecessor(net: Network, start: Index, goal: Index)
    requires UniqueIds(net.nodes)
    requires PrecedesGoal(net, start, goal) || forall i: Index :: !PrecedesGoal(net, i, goal)
    ensures ExactSearch(net, start, goal) && Slack(net, start, goal) == 0.0
  {
    forall e | e in net.edges && !e.blocked && PrecedesGoal(net, e.end, goal) ensures e.end == start {
      PredecessorUnique(net, e.end, start, goal);
    }
  }

  // ---------------------------------------------------------------- the search state

  function PathEnd(pp: PossiblePath): Index requires pp.path != [] { Last(pp.path).end }

  /** A queue entry is a real walk from the start with its true cost and estimate. */
  ghost predicate GoodEntry(net: Network, metric: Metric, start: Index, goal: Index, limit: real, pp: PossiblePath)
    requires limit > 0.0
  {
    && pp.path != []
    && Walk(net, start, pp.path, PathEnd(pp))
    && NoTurnAround(net, pp.path)
    && pp.cost == PathCost(net, pp.path, limit)
    && pp.estimate == pp.cost + Heuristic(net, metric, PathEnd(pp), goal, limit)
    && NodeAt(net.nodes, PathEnd(pp)).Some?
  }

  ghost predicate Reaches(q: seq<PossiblePath>, end: Index, cost: real) {
    exists pp :: pp in q && pp.path != [] && PathEnd(pp) == end && pp.cost <= cost
  }

  /** Every sure edge out of a closed node leads to a closed node or to a cheap enough queue entry. */
  ghost predicate Relaxed(net: Network, start: Index, limit: real, closed: map<Index, real>, q: seq<PossiblePath>) {
    forall e :: e in net.edges && !e.blocked && Sure(net, start, e) && e.start in closed
      ==> e.end in closed || Reaches(q, e.end, closed[e.start] + TimeAlong(net, e, limit))
  }

  /** Closed nodes were reached at a cost within err of every sure walk to them. */
  ghost predicate NearOptimal(net: Network, start: Index, limit: real, closed: map<Index, real>, err: real) {
    forall w, u :: u in closed && SureWalk(net, start, w, u) ==> closed[u] <= PathCost(net, w, limit) + err
  }

  lemma {:induction false} CheapCrossing(
      net: Network, metric: Metric, start: Index, goal: Index, limit: real,
      closed: map<Index, real>, q: seq<PossiblePath>, err: real, w: seq<Edge>, t: Index)
    returns (pp: PossiblePath)
    requires Realistic(net, metric, limit) && NodeAt(net.nodes, goal).Some?
    requires start in closed && t !in closed
    requires SureWalk(net, start, w, t)
    requires Relaxed(net, start, limit, closed, q) && NearOptimal(net, start, limit, closed, err)
    ensures pp in q && pp.path != []
    ensures NodeAt(net.nodes, PathEnd(pp)).Some? && NodeAt(net.nodes, t).Some?
    ensures pp.cost + Base(net, metric, PathEnd(pp), goal, limit)
              <= PathCost(net, w, limit) + err + Base(net, metric, t, goal, limit)
    ensures PathEnd(pp) != t
      ==> w != [] && NodeAt(net.nodes, Last(w).start).Some?
          && pp.cost + Base(net, metric, PathEnd(pp), goal, limit)
               <= PathCost(net, Front(w), limit) + err + Base(net, metric, Last(w).start, goal, limit)
    decreases |w|
  {
    var e := Last(w);
    FrontIsSure(net, start, w, t);
    BaseConsistent(net, metric, e, goal, limit);
    if e.start in closed {
      assert Reaches(q, t, closed[e.start] + TimeAlong(net, e, limit));
      pp :| pp in q && pp.path != [] && PathEnd(pp) == t && pp.cost <= closed[e.start] + TimeAlong(net, e, limit);
    } else {
      pp := CheapCrossing(net, metric, start, goal, limit, closed, q, err, Front(w), e.start);
    }
  }

  // ---------------------------------------------------------------- the priority queue

  /** Take an entry with the least estimate; which one of several equals is left open. */
  method PopLeast(q: seq<PossiblePath>) returns (top: PossiblePath, rest: seq<PossiblePath>)
    requires q != []
    ensures top in q && forall pp :: pp in q ==> top.estimate <= pp.estimate
    ensures |rest| == |q| - 1 && multiset(q) == multiset(rest) + multiset{top}
  {
    var best := 0;
    for i := 1 to |q|
      invariant 0 <= best < i
      invariant forall j :: 0 <= j < i ==> q[best].estimate <= q[j].estimate
    {
      if q[i].estimate < q[best].estimate { best := i; }
    }
    top, rest := q[best], q[..best] + q[best + 1..];
    assert q == q[..best] + [q[best]] + q[best + 1..];
  }

  function Extension(
      net: Network, metric: Metric, from: PossiblePath, e: Edge, goal: Index, limit: real): PossiblePath
    requires limit > 0.0
  {
    var cost := from.cost + TimeAlong(net, e, limit);
    PossiblePath(cost + Heuristic(net, metric, e.end, goal, limit), cost, from.path + [e])
  }

  ghost predicate Follows(net: Network, from: Index, prev: int, e: Edge) {
    e in net.edges && e.start == from && !e.blocked && !TurnsAround(net, prev, e)
  }

  /** The queue r is q followed by exactly the extensions of the path along edges that may be followed. */
  ghost predicate ExtendedBy(
      net: Network, metric: Metric, goal: Index, limit: real,
      from: PossiblePath, at: Index, prev: int, q: seq<PossiblePath>, r: seq<PossiblePath>)
    requires limit > 0.0
  {
    && |q| <= |r| && r[..|q|] == q
    && (forall pp :: pp in r[|q|..] ==>
          exists e :: Offered(net, at, prev, e) && pp == Extension(net, metric, from, e, goal, limit))
    && (forall e :: Offered(net, at, prev, e) ==> Extension(net, metric, from, e, goal, limit) in r[|q|..])
  }

  /** The edges of a list that start at a node, in order. */
  function Leaving(edges: seq<Edge>, from: Index): seq<Edge> {
    if edges == [] then []
    else Leaving(Front(edges), from) + if Last(edges).start == from then [Last(edges)] else []
  }

  lemma {:induction false} LeavingMembers(edges: seq<Edge>, from: Index)
    ensures forall e :: e in Leaving(edges, from) <==> e in edges && e.start == from
  {
    if edges != [] {
      LeavingMembers(Front(edges), from);
      assert edges == Front(edges) + [Last(edges)];
    }
  }

  /** The edge at position k may be followed, and the ends of all edges up to it are known. */
  ghost predicate Listed(net: Network, edges: seq<Edge>, prev: int, k: int) {
    && 0 <= k < |edges| && !edges[k].blocked && !TurnsAround(net, prev, edges[k])
    && forall j :: 0 <= j <= k ==> NodeAt(net.nodes, edges[j].end).Some?
  }

  /** The search follows the edge from a known node: it may be followed, and no edge before it leads nowhere. */
  ghost predicate Offered(net: Network, at: Index, prev: int, e: Edge) {
    NodeAt(net.nodes, at).Some? && exists k :: Listed(net, Leaving(net.edges, at), prev, k) && Leaving(net.edges, at)[k] == e
  }

  lemma OfferedFollows(net: Network, at: Index, prev: int, e: Edge)
    requires Offered(net, at, prev, e)
    ensures Follows(net, at, prev, e) && NodeAt(net.nodes, e.end).Some?
  {
    LeavingMembers(net.edges, at);
    var k :| Listed(net, Leaving(net.edges, at), prev, k) && Leaving(net.edges, at)[k] == e;
    assert e in Leaving(net.edges, at);
  }

  /** Where edges join nodes, every edge that may be followed is. */
  lemma FollowsOffered(net: Network, at: Index, prev: int, e: Edge)
    requires EdgesJoinNodes(net) && Follows(net, at, prev, e)
    ensures Offered(net, at, prev, e)
  {
    var edges := Leaving(net.edges, at);
    LeavingMembers(net.edges, at);
    var k :| 0 <= k < |edges| && edges[k] == e;
    forall j | 0 <= j <= k ensures NodeAt(net.nodes, edges[j].end).Some? { assert edges[j] in edges; }
    assert Listed(net, edges, prev, k);
  }

  method EdgesFrom(net: Network, from: Index) returns (es: seq<Edge>)
    ensures es == Leaving(net.edges, from)
  {
    es := [];
    for i := 0 to |net.edges|
      invariant es == Leaving(net.edges[..i], from)
    {
      assert Front(net.edges[..i + 1]) == net.edges[..i];
      if net.edges[i].start == from { es := es + [net.edges[i]]; }
    }
    assert net.edges[..|net.edges|] == net.edges;
  }

  /** One extension for each edge that may be followed, in order, up to an edge whose end is unknown. */
  function Extensions(
      net: Network, metric: Metric, from: PossiblePath, edges: seq<Edge>, goal: Index, limit: real, prev: int): seq<PossiblePath>
    requires limit > 0.0
  {
    if edges == [] || NodeAt(net.nodes, edges[0].end).None? then []
    else
      (if TurnsAround(net, prev, edges[0]) || edges[0].blocked then [] else [Extension(net, metric, from, edges[0], goal, limit)])
      + Extensions(net, metric, from, edges[1..], goal, limit, prev)
  }

  /** What add_to_queue pushes: nothing for an unknown node. */
  function Additions(
      net: Network, metric: Metric, from: PossiblePath, at: Index, goal: Index, limit: real, prev: int): seq<PossiblePath>
    requires limit > 0.0
  {
    if NodeAt(net.nodes, at).None? then []
    else Extensions(net, metric, from, Leaving(net.edges, at), goal, limit, prev)
  }

  /** Push exactly one extension of the path for each edge that may be followed, in list order. */
  method AddToQueue(
      net: Network, metric: Metric, q: seq<PossiblePath>, from: Index, soFar: PossiblePath,
      goal: Index, limit: real, prev: int) returns (r: seq<PossiblePath>)
    requires limit > 0.0
    ensures r == q + Additions(net, metric, soFar, from, goal, limit, prev)
  {
    r := q;
    if NodeAt(net.nodes, from).None? {
      return;
    }
    var edges := EdgesFrom(net, from);
    assert edges[0..] == edges;
    for i := 0 to |edges|
      invariant r + Extensions(net, metric, soFar, edges[i..], goal, limit, prev)
             == q + Extensions(net, metric, soFar, edges, goal, limit, prev)
    {
      var e := edges[i];
      assert edges[i..][0] == e && edges[i..][1..] == edges[i + 1..];
      if NodeAt(net.nodes, e.end).None? {
        return;
      }
      if !TurnsAround(net, prev, e) && !e.blocked {
        r := r + [Extension(net, metric, soFar, e, goal, limit)];
      }
    }
  }

  lemma {:induction false} ExtensionsListed(
      net: Network, metric: Metric, from: PossiblePath, edges: seq<Edge>, goal: Index, limit: real, prev: int)
    requires limit > 0.0
    ensures forall pp :: pp in Extensions(net, metric, from, edges, goal, limit, prev) ==>
      exists k :: Listed(net, edges, prev, k) && pp == Extension(net, metric, from, edges[k], goal, limit)
    ensures forall k :: Listed(net, edges, prev, k) ==>
      Extension(net, metric, from, edges[k], goal, limit) in Extensions(net, metric, from, edges, goal, limit, prev)
  {
    if edges != [] && NodeAt(net.nodes, edges[0].end).Some? {
      var all, tail := Extensions(net, metric, from, edges, goal, limit, prev), Extensions(net, metric, from, edges[1..], goal, limit, prev);
      ExtensionsListed(net, metric, from, edges[1..], goal, limit, prev);
      forall pp | pp in all
        ensures exists k :: Listed(net, edges, prev, k) && pp == Extension(net, metric, from, edges[k], goal, limit)
      {
        if pp in tail {
          var k :| Listed(net, edges[1..], prev, k) && pp == Extension(net, metric, from, edges[1..][k], goal, limit);
          ListedTail(net, edges, prev, k);
        } else {
          assert Listed(net, edges, prev, 0);
        }
      }
      forall k | Listed(net, edges, prev, k) ensures Extension(net, metric, from, edges[k], goal, limit) in all {
        if k > 0 { ListedTail(net, edges, prev, k - 1); }
      }
    }
  }

  lemma ListedTail(net: Network, edges: seq<Edge>, prev: int, k: nat)
    requires edges != [] && NodeAt(net.nodes, edges[0].end).Some?
    ensures Listed(net, edges[1..], prev, k) <==> Listed(net, edges, prev, k + 1)
    ensures k + 1 < |edges| ==> edges[1..][k] == edges[k + 1]
  {
    if Listed(net, edges[1..], prev, k) {
      forall j | 0 <= j <= k + 1 ensures NodeAt(net.nodes, edges[j].end).Some? {
        if j > 0 { assert edges[1..][j - 1] == edges[j]; }
      }
    }
    if Listed(net, edges, prev, k + 1) {
      forall j | 0 <= j <= k ensures NodeAt(net.nodes, edges[1..][j].end).Some? { assert edges[1..][j] == edges[j + 1]; }
    }
  }

  lemma AdditionsExtend(
      net: Network, metric: Metric, q: seq<PossiblePath>, from: Index, soFar: PossiblePath, goal: Index, limit: real, prev: int)
    requires limit > 0.0
    ensures ExtendedBy(net, metric, goal, limit, soFar, from, prev, q, q + Additions(net, metric, soFar, from, goal, limit, prev))
  {
    var more, edges := Additions(net, metric, soFar, from, goal, limit, prev), Leaving(net.edges, from);
    assert (q + more)[|q|..] == more;
    ExtensionsListed(net, metric, soFar, edges, goal, limit, prev);
    forall pp | pp in more
      ensures exists e :: Offered(net, from, prev, e) && pp == Extension(net, metric, soFar, e, goal, limit)
    {
      var k :| Listed(net, edges, prev, k) && pp == Extension(net, metric, soFar, edges[k], goal, limit);
      assert Offered(net, from, prev, edges[k]);
    }
  }

  // ---------------------------------------------------------------- one step of the search

  lemma ExtensionIsGood(
      net: Network, metric: Metric, start: Index, goal: Index, limit: real, from: PossiblePath, at: Index, prev: int, e: Edge)
    requires limit > 0.0 && Walk(net, start, from.path, at) && NoTurnAround(net, from.path)
    requires from.cost == PathCost(net, from.path, limit)
    requires prev == if from.path == [] then NO_PREVIOUS else Last(from.path).start
    requires Follows(net, at, prev, e) && NodeAt(net.nodes, e.end).Some?
    ensures GoodEntry(net, metric, start, goal, limit, Extension(net, metric, from, e, goal, limit))
  {
    var p := from.path + [e];
    assert Front(p) == from.path && Last(p) == e;
    forall i | 0 <= i < |p| ensures !TurnsAround(net, PreviousStart(p, i), p[i]) {
      if i < |from.path| {
        assert p[i] == from.path[i] && PreviousStart(p, i) == PreviousStart(from.path, i);
      }
    }
  }

  /** Closing the popped node keeps every sure edge out of the closed nodes relaxed. */
  lemma ClosingKeepsRelaxed(
      net: Network, metric: Metric, start: Index, goal: Index, limit: real,
      closed: map<Index, real>, q: seq<PossiblePath>, top: PossiblePath, rest: seq<PossiblePath>, r: seq<PossiblePath>)
    requires limit > 0.0 && EdgesJoinNodes(net) && top.path != [] && Walk(net, start, top.path, PathEnd(top))
    requires Relaxed(net, start, limit, closed, q) && multiset(q) == multiset(rest) + multiset{top}
    requires ExtendedBy(net, metric, goal, limit, top, PathEnd(top), Last(top.path).start, rest, r)
    ensures Relaxed(net, start, limit, closed[PathEnd(top) := top.cost], r)
  {
    var u := PathEnd(top);
    var closed' := closed[u := top.cost];
    forall e | e in net.edges && !e.blocked && Sure(net, start, e) && e.start in closed' && e.end !in closed'
      ensures Reaches(r, e.end, closed'[e.start] + TimeAlong(net, e, limit))
    {
      if e.start == u {
        assert !TurnsAround(net, Last(top.path).start, e);
        FollowsOffered(net, u, Last(top.path).start, e);
        var pp := Extension(net, metric, top, e, goal, limit);
        assert pp in r && PathEnd(pp) == e.end;
      } else {
        assert Reaches(q, e.end, closed[e.start] + TimeAlong(net, e, limit));
        var pp :| pp in q && pp.path != [] && PathEnd(pp) == e.end
                  && pp.cost <= closed[e.start] + TimeAlong(net, e, limit);
        assert pp in multiset(q) && pp != top;
        assert pp in multiset(rest);
        assert pp in r[..|rest|];
      }
    }
  }

  /** Dropping an entry that ends at a closed node keeps the queue relaxed. */
  lemma DroppingKeepsRelaxed(
      net: Network, start: Index, limit: real, closed: map<Index, real>, q: seq<PossiblePath>, top: PossiblePath, rest: seq<PossiblePath>)
    requires Relaxed(net, start, limit, closed, q) && multiset(q) == multiset(rest) + multiset{top}
    requires top.path != [] && PathEnd(top) in closed
    ensures Relaxed(net, start, limit, closed, rest)
  {
    forall e | e in net.edges && !e.blocked && Sure(net, start, e) && e.start in closed && e.end !in closed
      ensures Reaches(rest, e.end, closed[e.start] + TimeAlong(net, e, limit))
    {
      assert Reaches(q, e.end, closed[e.start] + TimeAlong(net, e, limit));
      var pp :| pp in q && pp.path != [] && PathEnd(pp) == e.end
                && pp.cost <= closed[e.start] + TimeAlong(net, e, limit);
      assert pp in multiset(q) && pp != top;
      assert pp in multiset(rest);
    }
  }

  /** How far from optimal the popped entry may be. */
  ghost function PopError(net: Network, start: Index, goal: Index, t: Index, err: real): real {
    if PrecedesGoal(net, t, goal) && !ExactSearch(net, start, goal) then err + STOP_PENALTY else err
  }

  /** The popped entry is within PopError of every sure walk to its end node. */
  lemma PoppedIsNearOptimal(
      net: Network, metric: Metric, start: Index, goal: Index, limit: real,
      closed: map<Index, real>, q: seq<PossiblePath>, err: real, top: PossiblePath, w: seq<Edge>)
    requires Realistic(net, metric, limit) && NodeAt(net.nodes, goal).Some?
    requires start in closed && Relaxed(net, start, limit, closed, q) && NearOptimal(net, start, limit, closed, err)
    requires forall pp :: pp in q ==> GoodEntry(net, metric, start, goal, limit, pp)
    requires top in q && (forall pp :: pp in q ==> top.estimate <= pp.estimate)
    requires top.path != [] && PathEnd(top) !in closed
    requires SureWalk(net, start, w, PathEnd(top))
    ensures top.cost <= PathCost(net, w, limit) + PopError(net, start, goal, PathEnd(top), err)
  {
    var t := PathEnd(top);
    var pp := CheapCrossing(net, metric, start, goal, limit, closed, q, err, w, t);
    HeuristicParts(net, metric, PathEnd(pp), goal, limit);
    HeuristicParts(net, metric, t, goal, limit);
    if PrecedesGoal(net, t, goal) && ExactSearch(net, start, goal) && PathEnd(pp) != t {
      assert PenalisedEdge(net, Last(w));
      BaseConsistent(net, metric, Last(w), goal, limit);
    }
  }

  lemma ClosingKeepsNearOptimal(
      net: Network, metric: Metric, start: Index, goal: Index, limit: real,
      closed: map<Index, real>, q: seq<PossiblePath>, err: real, top: PossiblePath)
    requires Realistic(net, metric, limit) && NodeAt(net.nodes, goal).Some?
    requires start in closed && Relaxed(net, start, limit, closed, q) && NearOptimal(net, start, limit, closed, err)
    requires forall pp :: pp in q ==> GoodEntry(net, metric, start, goal, limit, pp)
    requires top in q && (forall pp :: pp in q ==> top.estimate <= pp.estimate)
    requires top.path != [] && PathEnd(top) !in closed
    ensures NearOptimal(net, start, limit, closed[PathEnd(top) := top.cost], PopError(net, start, goal, PathEnd(top), err))
  {
    var t := PathEnd(top);
    forall w | SureWalk(net, start, w, t)
      ensures top.cost <= PathCost(net, w, limit) + PopError(net, start, goal, t, err)
    {
      PoppedIsNearOptimal(net, metric, start, goal, limit, closed, q, err, top, w);
    }
  }

  /** The accumulated error: the penalty is lost at most once, when the goal's predecessor closes. */
  ghost predicate ErrorWithinSlack(net: Network, start: Index, goal: Index, closed: map<Index, real>, err: real) {
    || err == 0.0
    || (err == STOP_PENALTY && !ExactSearch(net, start, goal) && exists p :: p in closed && PrecedesGoal(net, p, goal))
  }

  lemma ClosingKeepsError(net: Network, start: Index, goal: Index, closed: map<Index, real>, err: real, t: Index, cost: real)
    requires UniqueIds(net.nodes) && ErrorWithinSlack(net, start, goal, closed, err) && t !in closed
    ensures ErrorWithinSlack(net, start, goal, closed[t := cost], PopError(net, start, goal, t, err))
  {
    if err == STOP_PENALTY && PrecedesGoal(net, t, goal) {
      var p :| p in closed && PrecedesGoal(net, p, goal);
      PredecessorUnique(net, p, t, goal);
    }
    if err == STOP_PENALTY {
      var p :| p in closed && PrecedesGoal(net, p, goal);
      assert p in closed[t := cost];
    }
    if PopError(net, start, goal, t, err) != err {
      assert t in closed[t := cost];
    }
  }

  // ---------------------------------------------------------------- the search

  /** What holds of the closed nodes (with the costs they were closed at) and of the queue. */
  ghost predicate SearchInv(
      net: Network, metric: Metric, start: Index, goal: Index, limit: real,
      closed: map<Index, real>, q: seq<PossiblePath>, err: real)
    requires limit > 0.0
  {
    && NodeAt(net.nodes, goal).Some?
    && start in closed && goal !in closed
    && (forall pp :: pp in q ==> GoodEntry(net, metric, start, goal, limit, pp))
    && (EdgesJoinNodes(net) ==> Relaxed(net, start, limit, closed, q))
    && (EdgesJoinNodes(net) && Realistic(net, metric, limit)
        ==> NearOptimal(net, start, limit, closed, err) && ErrorWithinSlack(net, start, goal, closed, err))
  }

  /** No sure walk to the goal beats the path by more than the slack. */
  ghost predicate WithinSlack(net: Network, start: Index, goal: Index, limit: real, path: seq<Edge>) {
    forall w :: SureWalk(net, start, w, goal) ==>
      PathCost(net, path, limit) <= PathCost(net, w, limit) + Slack(net, start, goal)
  }

  /** The entry is one that the queue may yield next. */
  ghost predicate IsTop(q: seq<PossiblePath>, top: PossiblePath, rest: seq<PossiblePath>) {
    && top in q && (forall pp :: pp in q ==> top.estimate <= pp.estimate)
    && multiset(q) == multiset(rest) + multiset{top}
  }

  lemma RestIsInQueue(q: seq<PossiblePath>, top: PossiblePath, rest: seq<PossiblePath>)
    requires IsTop(q, top, rest)
    ensures forall pp :: pp in rest ==> pp in q
  {
    forall pp | pp in rest ensures pp in q {
      assert pp in multiset(rest);
      assert pp in multiset(q);
    }
  }

  lemma DropStep(
      net: Network, metric: Metric, start: Index, goal: Index, limit: real,
      closed: map<Index, real>, q: seq<PossiblePath>, err: real, top: PossiblePath, rest: seq<PossiblePath>)
    requires limit > 0.0 && SearchInv(net, metric, start, goal, limit, closed, q, err) && IsTop(q, top, rest)
    requires top.path != [] && PathEnd(top) in closed
    ensures SearchInv(net, metric, start, goal, limit, closed, rest, err)
  {
    RestIsInQueue(q, top, rest);
    if EdgesJoinNodes(net) {
      DroppingKeepsRelaxed(net, start, limit, closed, q, top, rest);
    }
  }

  lemma GoalStep(
      net: Network, metric: Metric, start: Index, goal: Index, limit: real,
      closed: map<Index, real>, q: seq<PossiblePath>, err: real, top: PossiblePath, rest: seq<PossiblePath>)
    requires limit > 0.0 && SearchInv(net, metric, start, goal, limit, closed, q, err) && IsTop(q, top, rest)
    requires top.path != [] && PathEnd(top) == goal
    ensures Walk(net, start, top.path, goal) && NoTurnAround(net, top.path)
    ensures EdgesJoinNodes(net) && Realistic(net, metric, limit) ==> WithinSlack(net, start, goal, limit, top.path)
  {
    assert !PrecedesGoal(net, goal, goal);
    if EdgesJoinNodes(net) && Realistic(net, metric, limit) {
      forall w | SureWalk(net, start, w, goal)
        ensures PathCost(net, top.path, limit) <= PathCost(net, w, limit) + Slack(net, start, goal)
      {
        PoppedIsNearOptimal(net, metric, start, goal, limit, closed, q, err, top, w);
      }
    }
  }

  lemma CloseStep(
      net: Network, metric: Metric, start: Index, goal: Index, limit: real, closed: map<Index, real>,
      q: seq<PossiblePath>, err: real, top: PossiblePath, rest: seq<PossiblePath>, r: seq<PossiblePath>)
    requires limit > 0.0 && SearchInv(net, metric, start, goal, limit, closed, q, err) && IsTop(q, top, rest)
    requires top.path != [] && PathEnd(top) != goal && PathEnd(top) !in closed
    requires ExtendedBy(net, metric, goal, limit, top, PathEnd(top), Last(top.path).start, rest, r)
    ensures SearchInv(net, metric, start, goal, limit, closed[PathEnd(top) := top.cost], r,
                      PopError(net, start, goal, PathEnd(top), err))
  {
    RestIsInQueue(q, top, rest);
    EntriesStayGood(net, metric, start, goal, limit, top, rest, r);
    if EdgesJoinNodes(net) {
      ClosingKeepsRelaxed(net, metric, start, goal, limit, closed, q, top, rest, r);
      if Realistic(net, metric, limit) {
        ClosingKeepsNearOptimal(net, metric, start, goal, limit, closed, q, err, top);
        ClosingKeepsError(net, start, goal, closed, err, PathEnd(top), top.cost);
      }
    }
  }

  // ---------------------------------------------------------------- what the first closed node decides

  const NO_PATH := PossiblePath(0.0, 0.0, [])

  /** The entry that the seeded queue holds for an edge out of the start. */
  function Seed(net: Network, metric: Metric, goal: Index, limit: real, e: Edge): PossiblePath
    requires limit > 0.0
  {
    Extension(net, metric, NO_PATH, e, goal, limit)
  }

  /** An edge out of the start whose estimate no other one undercuts. */
  ghost predicate IsFirst(net: Network, metric: Metric, start: Index, goal: Index, limit: real, f: Edge)
    requires limit > 0.0
  {
    && Offered(net, start, NO_PREVIOUS, f) && f.end != start
    && (forall e :: Offered(net, start, NO_PREVIOUS, e) && e.end != start ==>
          Seed(net, metric, goal, limit, f).estimate <= Seed(net, metric, goal, limit, e).estimate)
  }

  /** A path passes through the end of f only by way of f itself. */
  ghost predicate ViaFirst(path: seq<Edge>, f: Edge) {
    forall k :: 0 <= k < |path| - 1 && path[k].end == f.end ==> k == 0 && path[0] == f
  }

  ghost predicate Decided(net: Network, metric: Metric, start: Index, goal: Index, limit: real, path: seq<Edge>)
    requires limit > 0.0
  {
    exists f :: IsFirst(net, metric, start, goal, limit, f) && ViaFirst(path, f)
  }

  /** Before any node is closed the queue holds the seeds; afterwards all paths respect the first one. */
  ghost predicate FirstInv(
      net: Network, metric: Metric, start: Index, goal: Index, limit: real,
      closed: set<Index>, q: seq<PossiblePath>, first: Option<Edge>)
    requires limit > 0.0
  {
    match first
    case None =>
      && closed == {start}
      && (forall pp :: pp in q ==>
            exists e :: Offered(net, start, NO_PREVIOUS, e) && pp == Seed(net, metric, goal, limit, e))
      && (forall e :: Offered(net, start, NO_PREVIOUS, e) && e.end != start ==> Seed(net, metric, goal, limit, e) in q)
    case Some(f) =>
      IsFirst(net, metric, start, goal, limit, f) && f.end in closed && forall pp :: pp in q ==> ViaFirst(pp.path, f)
  }

  lemma SeedsAreFirst(net: Network, metric: Metric, start: Index, goal: Index, limit: real, q: seq<PossiblePath>)
    requires limit > 0.0
    requires ExtendedBy(net, metric, goal, limit, NO_PATH, start, NO_PREVIOUS, [], q)
    ensures FirstInv(net, metric, start, goal, limit, {start}, q, None)
  {
    assert q[0..] == q;
  }

  lemma FirstDrop(
      net: Network, metric: Metric, start: Index, goal: Index, limit: real,
      closed: set<Index>, q: seq<PossiblePath>, first: Option<Edge>, top: PossiblePath, rest: seq<PossiblePath>)
    requires limit > 0.0 && FirstInv(net, metric, start, goal, limit, closed, q, first) && IsTop(q, top, rest)
    requires top.path != [] && PathEnd(top) in closed
    ensures FirstInv(net, metric, start, goal, limit, closed, rest, first)
  {
    RestIsInQueue(q, top, rest);
    if first.None? {
      forall e | Offered(net, start, NO_PREVIOUS, e) && e.end != start ensures Seed(net, metric, goal, limit, e) in rest {
        var pp := Seed(net, metric, goal, limit, e);
        assert PathEnd(pp) == e.end;
        assert pp in multiset(q) && pp != top;
        assert pp in multiset(rest);
      }
    }
  }

  /** The popped entry respects the first closed node, or is the one that decides it. */
  lemma FirstTop(
      net: Network, metric: Metric, start: Index, goal: Index, limit: real,
      closed: set<Index>, q: seq<PossiblePath>, first: Option<Edge>, top: PossiblePath, rest: seq<PossiblePath>)
      returns (f: Edge)
    requires limit > 0.0 && FirstInv(net, metric, start, goal, limit, closed, q, first) && IsTop(q, top, rest)
    requires top.path != [] && PathEnd(top) !in closed
    ensures IsFirst(net, metric, start, goal, limit, f) && ViaFirst(top.path, f)
    ensures if first.Some? then f == first.value else top.path == [f]
  {
    if first.Some? {
      f := first.value;
    } else {
      f :| Offered(net, start, NO_PREVIOUS, f) && top == Seed(net, metric, goal, limit, f);
    }
  }

  lemma FirstClose(
      net: Network, metric: Metric, start: Index, goal: Index, limit: real, closed: set<Index>,
      q: seq<PossiblePath>, first: Option<Edge>, top: PossiblePath, rest: seq<PossiblePath>, r: seq<PossiblePath>, f: Edge)
    requires limit > 0.0 && FirstInv(net, metric, start, goal, limit, closed, q, first) && IsTop(q, top, rest)
    requires top.path != [] && PathEnd(top) !in closed
    requires IsFirst(net, metric, start, goal, limit, f) && ViaFirst(top.path, f)
    requires if first.Some? then f == first.value else top.path == [f]
    requires ExtendedBy(net, metric, goal, limit, top, PathEnd(top), Last(top.path).start, rest, r)
    ensures FirstInv(net, metric, start, goal, limit, closed + {PathEnd(top)}, r, Some(f))
  {
    RestIsInQueue(q, top, rest);
    assert r == r[..|rest|] + r[|rest|..];
    forall pp | pp in r ensures ViaFirst(pp.path, f) {
      if pp in r[|rest|..] {
        var e :| Offered(net, PathEnd(top), Last(top.path).start, e) && pp == Extension(net, metric, top, e, goal, limit);
        ExtensionViaFirst(top.path, e, f, first.Some?);
      } else if first.None? {
        var e :| Offered(net, start, NO_PREVIOUS, e) && pp == Seed(net, metric, goal, limit, e);
      }
    }
  }

  lemma ExtensionViaFirst(path: seq<Edge>, e: Edge, f: Edge, decided: bool)
    requires path != [] && ViaFirst(path, f) && if decided then Last(path).end != f.end else path == [f]
    ensures ViaFirst(path + [e], f)
  {
    var p := path + [e];
    forall k | 0 <= k < |p| - 1 && p[k].end == f.end ensures k == 0 && p[0] == f {
      assert p[k] == path[k];
    }
  }

  // ---------------------------------------------------------------- what an empty answer means

  ghost predicate Awaits(q: seq<PossiblePath>, end: Index) { exists pp :: pp in q && pp.path != [] && PathEnd(pp) == end }

  /** The edge may be followed from a way-point of the set, after the one that way-point was entered from. */
  ghost predicate Open(net: Network, prevs: map<Index, int>, e: Edge) {
    e.start in prevs && Offered(net, e.start, prevs[e.start], e)
  }

  ghost predicate EnteredBy(net: Network, prevs: map<Index, int>, u: Index)
    requires u in prevs
  {
    exists d :: Open(net, prevs, d) && d.end == u && d.start == prevs[u]
  }

  /** Every way-point of the set but the start was entered by an edge that may be followed within the set. */
  ghost predicate Entered(net: Network, start: Index, prevs: map<Index, int>) {
    && start in prevs && prevs[start] == NO_PREVIOUS
    && forall u {:trigger EnteredBy(net, prevs, u)} :: u in prevs && u != start ==> EnteredBy(net, prevs, u)
  }

  /**
   * The set holds the start, not the goal, and everything that may be followed from its way-points,
   * each entered from the one noted for it: the search cannot leave it.
   */
  ghost predicate Encloses(net: Network, start: Index, goal: Index, prevs: map<Index, int>) {
    Entered(net, start, prevs) && goal !in prevs && forall e :: Open(net, prevs, e) ==> e.end in prevs
  }

  ghost predicate Trapped(net: Network, start: Index, goal: Index) {
    NodeAt(net.nodes, goal).None? || exists prevs :: Encloses(net, start, goal, prevs)
  }

  /** No sure walk leads out of a trap. */
  lemma {:induction false} TrapHolds(net: Network, start: Index, goal: Index, prevs: map<Index, int>, w: seq<Edge>, t: Index)
    requires EdgesJoinNodes(net) && Encloses(net, start, goal, prevs) && SureWalk(net, start, w, t)
    ensures t in prevs
  {
    if w != [] {
      var e := Last(w);
      FrontIsSure(net, start, w, t);
      TrapHolds(net, start, goal, prevs, Front(w), e.start);
      if e.start != start {
        assert EnteredBy(net, prevs, e.start);
        var d :| Open(net, prevs, d) && d.end == e.start && d.start == prevs[e.start];
        OfferedFollows(net, d.start, prevs[d.start], d);
      }
      FollowsOffered(net, e.start, prevs[e.start], e);
    }
  }

  /** What is known of the noted predecessors while the queue is not empty yet. */
  ghost predicate TrapInv(net: Network, start: Index, prevs: map<Index, int>, q: seq<PossiblePath>) {
    Entered(net, start, prevs) && EntriesOpen(net, prevs, q) && Covered(net, prevs, q)
  }

  ghost predicate EntriesOpen(net: Network, prevs: map<Index, int>, q: seq<PossiblePath>) {
    forall pp :: pp in q ==> pp.path != [] && Open(net, prevs, Last(pp.path))
  }

  ghost predicate Covered(net: Network, prevs: map<Index, int>, q: seq<PossiblePath>) {
    forall e :: Open(net, prevs, e) ==> e.end in prevs || Awaits(q, e.end)
  }

  lemma TrapBegins(net: Network, metric: Metric, start: Index, goal: Index, limit: real, q: seq<PossiblePath>)
    requires limit > 0.0 && ExtendedBy(net, metric, goal, limit, NO_PATH, start, NO_PREVIOUS, [], q)
    ensures TrapInv(net, start, map[start := NO_PREVIOUS], q)
  {
    var prevs: map<Index, int> := map[start := NO_PREVIOUS];
    assert q[0..] == q;
    forall pp | pp in q ensures pp.path != [] && Open(net, prevs, Last(pp.path)) {
      var e :| Offered(net, start, NO_PREVIOUS, e) && pp == Extension(net, metric, NO_PATH, e, goal, limit);
      OfferedFollows(net, start, NO_PREVIOUS, e);
    }
    forall e | Open(net, prevs, e) ensures Awaits(q, e.end) {
      var pp := Extension(net, metric, NO_PATH, e, goal, limit);
      assert pp in q && PathEnd(pp) == e.end;
    }
  }

  lemma TrapDrop(
      net: Network, start: Index, prevs: map<Index, int>, q: seq<PossiblePath>, top: PossiblePath, rest: seq<PossiblePath>)
    requires TrapInv(net, start, prevs, q) && IsTop(q, top, rest) && top.path != [] && PathEnd(top) in prevs
    ensures TrapInv(net, start, prevs, rest)
  {
    RestIsInQueue(q, top, rest);
    forall e | Open(net, prevs, e) && e.end !in prevs ensures Awaits(rest, e.end) {
      StillAwaits(q, top, rest, e.end);
    }
  }

  lemma StillAwaits(q: seq<PossiblePath>, top: PossiblePath, rest: seq<PossiblePath>, end: Index)
    requires IsTop(q, top, rest) && Awaits(q, end) && top.path != [] && PathEnd(top) != end
    ensures Awaits(rest, end)
  {
    var pp :| pp in q && pp.path != [] && PathEnd(pp) == end;
    assert pp in multiset(q) && pp != top;
    assert pp in multiset(rest);
  }

  lemma TrapClose(
      net: Network, metric: Metric, start: Index, goal: Index, limit: real, prevs: map<Index, int>,
      q: seq<PossiblePath>, top: PossiblePath, rest: seq<PossiblePath>, r: seq<PossiblePath>)
    requires limit > 0.0 && TrapInv(net, start, prevs, q) && IsTop(q, top, rest)
    requires top.path != [] && PathEnd(top) !in prevs
    requires ExtendedBy(net, metric, goal, limit, top, PathEnd(top), Last(top.path).start, rest, r)
    ensures TrapInv(net, start, prevs[PathEnd(top) := Last(top.path).start], r)
  {
    var d := Last(top.path);
    var more := prevs[d.end := d.start];
    assert Open(net, prevs, d);
    EnteredGrows(net, start, prevs, d);
    CloseKeepsEntries(net, metric, start, goal, limit, prevs, more, q, top, rest, r);
    CloseCovers(net, metric, start, goal, limit, prevs, more, q, top, rest, r);
  }

  lemma CloseKeepsEntries(
      net: Network, metric: Metric, start: Index, goal: Index, limit: real, prevs: map<Index, int>, more: map<Index, int>,
      q: seq<PossiblePath>, top: PossiblePath, rest: seq<PossiblePath>, r: seq<PossiblePath>)
    requires limit > 0.0 && EntriesOpen(net, prevs, q) && IsTop(q, top, rest) && top.path != [] && PathEnd(top) !in prevs
    requires more == prevs[PathEnd(top) := Last(top.path).start]
    requires ExtendedBy(net, metric, goal, limit, top, PathEnd(top), Last(top.path).start, rest, r)
    ensures EntriesOpen(net, more, r)
  {
    RestIsInQueue(q, top, rest);
    assert r == r[..|rest|] + r[|rest|..];
    forall pp | pp in r ensures pp.path != [] && Open(net, more, Last(pp.path)) {
      if pp in r[|rest|..] {
        ExtensionOpen(net, metric, goal, limit, more, top, rest, r, pp);
      } else {
        OpenStays(net, prevs, PathEnd(top), Last(top.path).start, Last(pp.path));
      }
    }
  }

  lemma CloseCovers(
      net: Network, metric: Metric, start: Index, goal: Index, limit: real, prevs: map<Index, int>, more: map<Index, int>,
      q: seq<PossiblePath>, top: PossiblePath, rest: seq<PossiblePath>, r: seq<PossiblePath>)
    requires limit > 0.0 && TrapInv(net, start, prevs, q) && IsTop(q, top, rest) && top.path != [] && PathEnd(top) !in prevs
    requires more == prevs[PathEnd(top) := Last(top.path).start]
    requires ExtendedBy(net, metric, goal, limit, top, PathEnd(top), Last(top.path).start, rest, r)
    ensures Covered(net, more, r)
  {
    forall e | Open(net, more, e) && e.end !in more ensures Awaits(r, e.end) {
      TrapAwaits(net, metric, start, goal, limit, prevs, q, top, rest, r, e);
    }
  }

  lemma EnteredGrows(net: Network, start: Index, prevs: map<Index, int>, d: Edge)
    requires Entered(net, start, prevs) && Open(net, prevs, d) && d.end !in prevs
    ensures Entered(net, start, prevs[d.end := d.start])
  {
    var more := prevs[d.end := d.start];
    OpenStays(net, prevs, d.end, d.start, d);
    forall u | u in more && u != start ensures EnteredBy(net, more, u) {
      if u != d.end { EnteredStays(net, prevs, d.end, d.start, u); }
    }
  }

  lemma EnteredStays(net: Network, prevs: map<Index, int>, v: Index, prev: int, u: Index)
    requires v !in prevs && u in prevs && EnteredBy(net, prevs, u)
    ensures EnteredBy(net, prevs[v := prev], u)
  {
    var c :| Open(net, prevs, c) && c.end == u && c.start == prevs[u];
    OpenStays(net, prevs, v, prev, c);
  }

  lemma ExtensionOpen(
      net: Network, metric: Metric, goal: Index, limit: real, prevs: map<Index, int>,
      top: PossiblePath, rest: seq<PossiblePath>, r: seq<PossiblePath>, pp: PossiblePath)
    requires limit > 0.0 && top.path != [] && PathEnd(top) in prevs && prevs[PathEnd(top)] == Last(top.path).start
    requires ExtendedBy(net, metric, goal, limit, top, PathEnd(top), Last(top.path).start, rest, r) && pp in r[|rest|..]
    ensures pp.path != [] && Open(net, prevs, Last(pp.path))
  {
    var e :| Offered(net, PathEnd(top), Last(top.path).start, e) && pp == Extension(net, metric, top, e, goal, limit);
    OfferedFollows(net, PathEnd(top), Last(top.path).start, e);
    assert pp.path == top.path + [e];
  }

  lemma TrapAwaits(
      net: Network, metric: Metric, start: Index, goal: Index, limit: real, prevs: map<Index, int>,
      q: seq<PossiblePath>, top: PossiblePath, rest: seq<PossiblePath>, r: seq<PossiblePath>, e: Edge)
    requires limit > 0.0 && TrapInv(net, start, prevs, q) && IsTop(q, top, rest)
    requires top.path != [] && PathEnd(top) !in prevs
    requires ExtendedBy(net, metric, goal, limit, top, PathEnd(top), Last(top.path).start, rest, r)
    requires Open(net, prevs[PathEnd(top) := Last(top.path).start], e) && e.end !in prevs && e.end != PathEnd(top)
    ensures Awaits(r, e.end)
  {
    if e.start == PathEnd(top) {
      var pp := Extension(net, metric, top, e, goal, limit);
      assert pp in r[|rest|..] && PathEnd(pp) == e.end;
      assert pp in r;
    } else {
      assert Open(net, prevs, e);
      StillAwaits(q, top, rest, e.end);
      var pp :| pp in rest && pp.path != [] && PathEnd(pp) == e.end;
      assert pp in r[..|rest|];
    }
  }

  lemma OpenStays(net: Network, prevs: map<Index, int>, u: Index, prev: int, e: Edge)
    requires u !in prevs && Open(net, prevs, e)
    ensures Open(net, prevs[u := prev], e)
  {}

  function Indices(nodes: seq<Node>): set<Index> { set n | n in nodes :: n.index }

  /**
   * A* from start to goal. The result is empty when start is the goal, when the goal is not in
   * the graph, or when the search fails.
   */
  method AStar(net: Network, metric: Metric, start: Index, goal: Index, limit: real) returns (path: seq<Edge>)
    requires limit > 0.0
    // soundness
    ensures path != [] ==> start != goal && Walk(net, start, path, goal) && NoTurnAround(net, path)
    // completeness: what an empty answer means on every graph, and which walks it rules out
    ensures path == [] && start != goal ==> Trapped(net, start, goal)
    ensures EdgesJoinNodes(net) && path == [] && start != goal ==> !exists w :: SureWalk(net, start, w, goal)
    // near-optimality
    ensures EdgesJoinNodes(net) && Realistic(net, metric, limit) && path != []
      ==> WithinSlack(net, start, goal, limit, path)
    // the node closed first is never reached in another way
    ensures path != [] ==> Decided(net, metric, start, goal, limit, path)
  {
    if start == goal || NodeAt(net.nodes, goal).None? {
      if start != goal { UnknownGoal(net, start, goal); }
      return [];
    }
    var closed := {start};
    ghost var costs: map<Index, real> := map[start := 0.0];
    ghost var prevs: map<Index, int> := map[start := NO_PREVIOUS];
    ghost var err, first := 0.0, None;
    var q := AddToQueue(net, metric, [], start, NO_PATH, goal, limit, NO_PREVIOUS);
    SearchBegins(net, metric, start, goal, limit, q);
    while q != []
      invariant FullInv(net, metric, start, goal, limit, costs, prevs, closed, q, err, first)
      decreases Indices(net.nodes) - closed, |q|
    {
      var top, rest := PopLeast(q);
      TopIsGood(net, metric, start, goal, limit, costs, prevs, closed, q, err, first, top, rest);
      var final := Last(top.path);
      if final.end in closed {
        FullDrop(net, metric, start, goal, limit, costs, prevs, closed, q, err, first, top, rest);
        q := rest;
        continue;
      }
      if final.end == goal {
        FullGoal(net, metric, start, goal, limit, costs, prevs, closed, q, err, first, top, rest);
        return top.path;
      }
      var r := AddToQueue(net, metric, rest, final.end, top, goal, limit, final.start);
      ghost var f := FullClose(net, metric, start, goal, limit, costs, prevs, closed, q, err, first, top, rest, r);
      err, first := PopError(net, start, goal, final.end, err), Some(f);
      costs, prevs := costs[final.end := top.cost], prevs[final.end := final.start];
      closed := closed + {final.end};
      q := r;
    }
    path := [];
    SearchEnds(net, metric, start, goal, limit, costs, prevs, closed, err, first);
  }

  ghost predicate FullInv(
      net: Network, metric: Metric, start: Index, goal: Index, limit: real,
      costs: map<Index, real>, prevs: map<Index, int>, closed: set<Index>, q: seq<PossiblePath>, err: real, first: Option<Edge>)
    requires limit > 0.0
  {
    && SearchInv(net, metric, start, goal, limit, costs, q, err) && costs.Keys == closed
    && TrapInv(net, start, prevs, q) && prevs.Keys == closed
    && FirstInv(net, metric, start, goal, limit, closed, q, first)
  }

  lemma SearchBegins(net: Network, metric: Metric, start: Index, goal: Index, limit: real, q: seq<PossiblePath>)
    requires limit > 0.0 && start != goal && NodeAt(net.nodes, goal).Some?
    requires q == [] + Additions(net, metric, NO_PATH, start, goal, limit, NO_PREVIOUS)
    ensures FullInv(net, metric, start, goal, limit, map[start := 0.0], map[start := NO_PREVIOUS], {start}, q, 0.0, None)
  {
    AdditionsExtend(net, metric, [], start, NO_PATH, goal, limit, NO_PREVIOUS);
    SearchStarts(net, metric, start, goal, limit, q);
    TrapBegins(net, metric, start, goal, limit, q);
    SeedsAreFirst(net, metric, start, goal, limit, q);
  }

  lemma UnknownGoal(net: Network, start: Index, goal: Index)
    requires NodeAt(net.nodes, goal).None? && start != goal
    ensures Trapped(net, start, goal) && (EdgesJoinNodes(net) ==> !exists w :: SureWalk(net, start, w, goal))
  {
    assert forall w :: SureWalk(net, start, w, goal) && w != [] ==> Last(w) in net.edges;
  }

  /** When the queue runs empty the closed nodes are a trap without the goal. */
  lemma SearchEnds(
      net: Network, metric: Metric, start: Index, goal: Index, limit: real,
      costs: map<Index, real>, prevs: map<Index, int>, closed: set<Index>, err: real, first: Option<Edge>)
    requires limit > 0.0 && FullInv(net, metric, start, goal, limit, costs, prevs, closed, [], err, first)
    ensures Trapped(net, start, goal) && (EdgesJoinNodes(net) ==> !exists w :: SureWalk(net, start, w, goal))
  {
    EmptyIsTrap(net, start, goal, prevs);
    if EdgesJoinNodes(net) {
      forall w ensures !SureWalk(net, start, w, goal) {
        if SureWalk(net, start, w, goal) { TrapHolds(net, start, goal, prevs, w, goal); }
      }
    }
  }

  lemma EmptyIsTrap(net: Network, start: Index, goal: Index, prevs: map<Index, int>)
    requires TrapInv(net, start, prevs, []) && goal !in prevs
    ensures Encloses(net, start, goal, prevs)
  {}

  lemma TopIsGood(
      net: Network, metric: Metric, start: Index, goal: Index, limit: real, costs: map<Index, real>, prevs: map<Index, int>, closed: set<Index>,
      q: seq<PossiblePath>, err: real, first: Option<Edge>, top: PossiblePath, rest: seq<PossiblePath>)
    requires limit > 0.0 && FullInv(net, metric, start, goal, limit, costs, prevs, closed, q, err, first) && IsTop(q, top, rest)
    ensures top.path != [] && PathEnd(top) in Indices(net.nodes)
  {
    assert GoodEntry(net, metric, start, goal, limit, top);
  }

  lemma FullDrop(
      net: Network, metric: Metric, start: Index, goal: Index, limit: real, costs: map<Index, real>, prevs: map<Index, int>, closed: set<Index>,
      q: seq<PossiblePath>, err: real, first: Option<Edge>, top: PossiblePath, rest: seq<PossiblePath>)
    requires limit > 0.0 && FullInv(net, metric, start, goal, limit, costs, prevs, closed, q, err, first) && IsTop(q, top, rest)
    requires top.path != [] && PathEnd(top) in closed
    ensures FullInv(net, metric, start, goal, limit, costs, prevs, closed, rest, err, first)
  {
    DropStep(net, metric, start, goal, limit, costs, q, err, top, rest);
    TrapDrop(net, start, prevs, q, top, rest);
    FirstDrop(net, metric, start, goal, limit, closed, q, first, top, rest);
  }

  lemma FullGoal(
      net: Network, metric: Metric, start: Index, goal: Index, limit: real, costs: map<Index, real>, prevs: map<Index, int>, closed: set<Index>,
      q: seq<PossiblePath>, err: real, first: Option<Edge>, top: PossiblePath, rest: seq<PossiblePath>)
    requires limit > 0.0 && FullInv(net, metric, start, goal, limit, costs, prevs, closed, q, err, first) && IsTop(q, top, rest)
    requires top.path != [] && PathEnd(top) == goal && goal !in closed
    ensures Walk(net, start, top.path, goal) && NoTurnAround(net, top.path) && Decided(net, metric, start, goal, limit, top.path)
    ensures EdgesJoinNodes(net) && Realistic(net, metric, limit) ==> WithinSlack(net, start, goal, limit, top.path)
  {
    GoalStep(net, metric, start, goal, limit, costs, q, err, top, rest);
    var f := FirstTop(net, metric, start, goal, limit, closed, q, first, top, rest);
  }

  lemma FullClose(
      net: Network, metric: Metric, start: Index, goal: Index, limit: real, costs: map<Index, real>, prevs: map<Index, int>, closed: set<Index>,
      q: seq<PossiblePath>, err: real, first: Option<Edge>, top: PossiblePath, rest: seq<PossiblePath>, r: seq<PossiblePath>)
      returns (f: Edge)
    requires limit > 0.0 && FullInv(net, metric, start, goal, limit, costs, prevs, closed, q, err, first) && IsTop(q, top, rest)
    requires top.path != [] && PathEnd(top) != goal && PathEnd(top) !in closed
    requires r == rest + Additions(net, metric, top, PathEnd(top), goal, limit, Last(top.path).start)
    ensures FullInv(net, metric, start, goal, limit, costs[PathEnd(top) := top.cost], prevs[PathEnd(top) := Last(top.path).start],
                    closed + {PathEnd(top)}, r, PopError(net, start, goal, PathEnd(top), err), Some(f))
  {
    CloseSearch(net, metric, start, goal, limit, costs, prevs, closed, q, err, first, top, rest, r);
    f := CloseMarks(net, metric, start, goal, limit, costs, prevs, closed, q, err, first, top, rest, r);
    FullParts(net, metric, start, goal, limit, costs[PathEnd(top) := top.cost], prevs[PathEnd(top) := Last(top.path).start],
              closed + {PathEnd(top)}, r, PopError(net, start, goal, PathEnd(top), err), Some(f));
  }

  lemma CloseSearch(
      net: Network, metric: Metric, start: Index, goal: Index, limit: real, costs: map<Index, real>, prevs: map<Index, int>, closed: set<Index>,
      q: seq<PossiblePath>, err: real, first: Option<Edge>, top: PossiblePath, rest: seq<PossiblePath>, r: seq<PossiblePath>)
    requires limit > 0.0 && FullInv(net, metric, start, goal, limit, costs, prevs, closed, q, err, first) && IsTop(q, top, rest)
    requires top.path != [] && PathEnd(top) != goal && PathEnd(top) !in closed
    requires r == rest + Additions(net, metric, top, PathEnd(top), goal, limit, Last(top.path).start)
    ensures SearchInv(net, metric, start, goal, limit, costs[PathEnd(top) := top.cost], r, PopError(net, start, goal, PathEnd(top), err))
    ensures costs[PathEnd(top) := top.cost].Keys == prevs[PathEnd(top) := Last(top.path).start].Keys == closed + {PathEnd(top)}
  {
    AdditionsExtend(net, metric, rest, PathEnd(top), top, goal, limit, Last(top.path).start);
    CloseStep(net, metric, start, goal, limit, costs, q, err, top, rest, r);
  }

  lemma CloseMarks(
      net: Network, metric: Metric, start: Index, goal: Index, limit: real, costs: map<Index, real>, prevs: map<Index, int>, closed: set<Index>,
      q: seq<PossiblePath>, err: real, first: Option<Edge>, top: PossiblePath, rest: seq<PossiblePath>, r: seq<PossiblePath>)
      returns (f: Edge)
    requires limit > 0.0 && FullInv(net, metric, start, goal, limit, costs, prevs, closed, q, err, first) && IsTop(q, top, rest)
    requires top.path != [] && PathEnd(top) != goal && PathEnd(top) !in closed
    requires r == rest + Additions(net, metric, top, PathEnd(top), goal, limit, Last(top.path).start)
    ensures TrapInv(net, start, prevs[PathEnd(top) := Last(top.path).start], r)
    ensures FirstInv(net, metric, start, goal, limit, closed + {PathEnd(top)}, r, Some(f))
  {
    AdditionsExtend(net, metric, rest, PathEnd(top), top, goal, limit, Last(top.path).start);
    TrapClose(net, metric, start, goal, limit, prevs, q, top, rest, r);
    f := FirstStep(net, metric, start, goal, limit, closed, q, first, top, rest, r);
  }

  lemma FirstStep(
      net: Network, metric: Metric, start: Index, goal: Index, limit: real, closed: set<Index>,
      q: seq<PossiblePath>, first: Option<Edge>, top: PossiblePath, rest: seq<PossiblePath>, r: seq<PossiblePath>)
      returns (f: Edge)
    requires limit > 0.0 && FirstInv(net, metric, start, goal, limit, closed, q, first) && IsTop(q, top, rest)
    requires top.path != [] && PathEnd(top) !in closed
    requires ExtendedBy(net, metric, goal, limit, top, PathEnd(top), Last(top.path).start, rest, r)
    ensures FirstInv(net, metric, start, goal, limit, closed + {PathEnd(top)}, r, Some(f))
  {
    f := FirstTop(net, metric, start, goal, limit, closed, q, first, top, rest);
    FirstClose(net, metric, start, goal, limit, closed, q, first, top, rest, r, f);
  }

  lemma FullParts(
      net: Network, metric: Metric, start: Index, goal: Index, limit: real, costs: map<Index, real>, prevs: map<Index, int>,
      closed: set<Index>, q: seq<PossiblePath>, err: real, first: Option<Edge>)
    requires limit > 0.0 && SearchInv(net, metric, start, goal, limit, costs, q, err) && TrapInv(net, start, prevs, q)
    requires FirstInv(net, metric, start, goal, limit, closed, q, first) && costs.Keys == prevs.Keys == closed
    ensures FullInv(net, metric, start, goal, limit, costs, prevs, closed, q, err, first)
  {}

  lemma EntriesStayGood(
      net: Network, metric: Metric, start: Index, goal: Index, limit: real,
      top: PossiblePath, rest: seq<PossiblePath>, r: seq<PossiblePath>)
    requires limit > 0.0 && GoodEntry(net, metric, start, goal, limit, top)
    requires forall pp :: pp in rest ==> GoodEntry(net, metric, start, goal, limit, pp)
    requires ExtendedBy(net, metric, goal, limit, top, PathEnd(top), Last(top.path).start, rest, r)
    ensures forall pp :: pp in r ==> GoodEntry(net, metric, start, goal, limit, pp)
  {
    forall pp | pp in r ensures GoodEntry(net, metric, start, goal, limit, pp) {
      assert r == r[..|rest|] + r[|rest|..];
      if pp in r[|rest|..] {
        var e :| Offered(net, PathEnd(top), Last(top.path).start, e) && pp == Extension(net, metric, top, e, goal, limit);
        OfferedFollows(net, PathEnd(top), Last(top.path).start, e);
        ExtensionIsGood(net, metric, start, goal, limit, top, PathEnd(top), Last(top.path).start, e);
      }
    }
  }

  /** The seeded queue satisfies the loop invariant. */
  lemma SearchStarts(net: Network, metric: Metric, start: Index, goal: Index, limit: real, q: seq<PossiblePath>)
    requires limit > 0.0 && start != goal && NodeAt(net.nodes, goal).Some?
    requires ExtendedBy(net, metric, goal, limit, PossiblePath(0.0, 0.0, []), start, NO_PREVIOUS, [], q)
    ensures SearchInv(net, metric, start, goal, limit, map[start := 0.0], q, 0.0)
  {
    var none := PossiblePath(0.0, 0.0, []);
    assert q[0..] == q;
    forall pp | pp in q ensures GoodEntry(net, metric, start, goal, limit, pp) {
      var e :| Offered(net, start, NO_PREVIOUS, e) && pp == Extension(net, metric, none, e, goal, limit);
      OfferedFollows(net, start, NO_PREVIOUS, e);
      ExtensionIsGood(net, metric, start, goal, limit, none, start, NO_PREVIOUS, e);
    }
    if EdgesJoinNodes(net) {
      forall e | e in net.edges && !e.blocked && Sure(net, start, e) && e.start == start
        ensures Reaches(q, e.end, 0.0 + TimeAlong(net, e, limit))
      {
        FollowsOffered(net, start, NO_PREVIOUS, e);
        assert PathEnd(Extension(net, metric, none, e, goal, limit)) == e.end;
      }
    }
    if Realistic(net, metric, limit) {
      forall w | SureWalk(net, start, w, start) ensures 0.0 <= PathCost(net, w, limit) {
        CostsAreNonNegative(net, metric, start, w, start, limit);
      }
    }
  }

  lemma {:induction false} CostsAreNonNegative(
      net: Network, metric: Metric, s: Index, w: seq<Edge>, t: Index, limit: real)
    requires Realistic(net, metric, limit) && Walk(net, s, w, t)
    ensures 0.0 <= PathCost(net, w, limit)
  {
    if w != [] {
      CostsAreNonNegative(net, metric, s, Front(w), Last(w).start, limit);
      EdgeCostsAreNonNegative(net, metric, Last(w), limit);
    }
  }

  lemma EdgeCostsAreNonNegative(net: Network, metric: Metric, e: Edge, limit: real)
    requires Realistic(net, metric, limit) && e in net.edges && !e.blocked
    ensures 0.0 <= TimeAlong(net, e, limit)
  {
    assert RealisticEdge(net, metric, e);
    var a, b := NodeAt(net.nodes, e.start).value, NodeAt(net.nodes, e.end).value;
    assert 0.0 <= metric(a.xy, b.xy);
    var distance := if InZone(a) || InZone(b) then INFINITE_DISTANCE else e.distance;
    SlowerIsLonger(distance, 0.0, Min(e.speedMax, limit), limit);
  }
}
