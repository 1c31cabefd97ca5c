/** The U-turn and stop marks of an order: where they go wrong, and exactly when they are right. */
module OrderMarks {
  import opened WayPoints
  import opened RoadGraph
  import opened Orders
  import Road

  lemma TurnsInSuffix(nodes: seq<Node>, route: seq<Edge>, k: nat, i: nat)
    requires SimpleRoute(nodes, route) && k < |route|
    ensures TurnsAt(nodes, route[k..], i) == TurnsAt(nodes, route, k + i)
  {
    SuffixIds(nodes, route, k, i);
    SuffixIds(nodes, route, k, i + 1);
  }

  /** The mark of the order that the Commander makes at the k-th way-point counts from there. */
  lemma FirstTurnAhead(nodes: seq<Node>, route: seq<Edge>, k: nat, turn: int)
    requires SimpleRoute(nodes, route) && 1 <= k < |route|
    ensures FirstTurn(nodes, Walked(nodes, route, RouteId(nodes, route, k)), 0, turn)
      <==> FirstTurn(nodes, route, k, turn)
  {
    WalkStopsAt(nodes, route, k);
    forall i: nat ensures TurnsAt(nodes, route[k..], i) == TurnsAt(nodes, route, k + i) {
      TurnsInSuffix(nodes, route, k, i);
    }
    forall i: nat | k <= i ensures TurnsAt(nodes, route, i) == TurnsAt(nodes, route[k..], i - k) {
      TurnsInSuffix(nodes, route, k, i - k);
    }
  }

  /**
   * The Navigator shifts the way-points of an order and leaves its U-turn mark. After a shift by k
   * the mark is that of the Commander's next order exactly when the old order shows no U-turn from
   * the vehicle on, and the first one the next order shows is as far ahead as the passed one was.
   */
  lemma UturnMarkAgrees(nodes: seq<Node>, route: seq<Edge>, k: nat, mark: int, next: int)
    requires SimpleRoute(nodes, route) && 1 <= k < N_WAYPTS && k < |route|
    requires FirstTurn(nodes, route, 0, mark)
    requires FirstTurn(nodes, Walked(nodes, route, RouteId(nodes, route, k)), 0, next)
    ensures mark == next <==>
      if mark < 0 then forall i :: N_WAYPTS - 1 <= i < N_WAYPTS - 1 + k ==> !TurnsAt(nodes, route, i)
      else mark < k && TurnsAt(nodes, route, k + mark) && forall i :: k <= i < k + mark ==> !TurnsAt(nodes, route, i)
    ensures mark >= k ==> next == mark - k
  {
    FirstTurnAhead(nodes, route, k, next);
  }

  /** A U-turn two way-points ahead: one way-point later the mark still says so. */
  lemma UturnMarkIsLeft() returns (nodes: seq<Node>, route: seq<Edge>)
    ensures SimpleRoute(nodes, route) && |route| == 3
    ensures FirstTurn(nodes, route, 0, 1)
    ensures FirstTurn(nodes, Walked(nodes, route, RouteId(nodes, route, 1)), 0, 0)
  {
    var ids := [ElementId(1, 1, 1), ElementId(1, 1, 2), ElementId(1, 2, 1), ElementId(1, 2, 2)];
    nodes, route := Points(ids, []), Edges(3);
    Straight(ids, []);
    assert TurnsAt(nodes, route, 1);
    assert !TurnsAt(nodes, route, 0);
    FirstTurnAhead(nodes, route, 1, 0);
  }

  /** A straight road through the way-points, some of them stops. */
  function Points(ids: seq<ElementId>, stops: seq<ElementId>): (r: seq<Node>)
    requires |ids| < 10
    ensures |r| == |ids| && forall i :: 0 <= i < |ids| ==>
      r[i].id == ids[i] && r[i].index == i && r[i].isStop == (ids[i] in stops)
  {
    seq(|ids|, i requires 0 <= i < |ids| =>
      Node(MapXY(0.0, 0.0), ids[i], i, ids[i] in stops, false, false, false, false))
  }

  function Edges(n: nat): (r: seq<Edge>)
    requires n < 10
    ensures |r| == n && forall i :: 0 <= i < n ==> r[i].start == i && r[i].end == i + 1 && r[i].distance >= 0.0
    ensures forall i :: 0 <= i < n ==> !r[i].isImplicit
  {
    seq(n, i requires 0 <= i < n => Edge(i, i + 1, 1.0, 10.0, 0.0, false, false, false))
  }

  lemma Straight(ids: seq<ElementId>, stops: seq<ElementId>)
    requires 1 < |ids| < 10 && forall i, j :: 0 <= i < j < |ids| ==> ids[i] != ids[j]
    ensures SimpleRoute(Points(ids, stops), Edges(|ids| - 1))
    ensures forall i: nat :: i < |ids| ==> NodeAt(Points(ids, stops), i) == Some(Points(ids, stops)[i])
    ensures forall i: nat :: i < |ids| ==> RouteId(Points(ids, stops), Edges(|ids| - 1), i) == ids[i]
  {
    var nodes, route := Points(ids, stops), Edges(|ids| - 1);
    Found(nodes);
    forall i: nat | i < |ids| ensures RouteId(nodes, route, i) == ids[i] {
      StraightId(nodes, route, i);
    }
  }

  lemma StraightId(nodes: seq<Node>, route: seq<Edge>, i: nat)
    requires i <= |route| && 0 < |route| < |nodes| && NodeAt(nodes, i) == Some(nodes[i])
    requires forall j :: 0 <= j < |route| ==> route[j].start == j && route[j].end == j + 1
    ensures RouteId(nodes, route, i) == nodes[i].id
  {
    assert i > 0 ==> RouteAt(route, i - 1).end == i;
  }

  lemma {:induction false} FoundFrom(nodes: seq<Node>, first: nat, i: nat)
    requires i < |nodes| && forall j :: 0 <= j < |nodes| ==> nodes[j].index == first + j
    ensures NodeAt(nodes, first + i) == Some(nodes[i])
  {
    if i > 0 { FoundFrom(nodes[1..], first + 1, i - 1); }
  }

  lemma Found(nodes: seq<Node>)
    requires forall j :: 0 <= j < |nodes| ==> nodes[j].index == j
    ensures forall i: nat :: i < |nodes| ==> NodeAt(nodes, i) == Some(nodes[i])
  {
    forall i: nat | i < |nodes| ensures NodeAt(nodes, i) == Some(nodes[i]) { FoundFrom(nodes, 0, i); }
  }

  // ---------------------------------------------------------------- stops

  /** What the road controller sees of the entries of an order. */
  ghost predicate Shows(env: Road.Env, order: seq<WayPoint>)
    requires |order| == N_WAYPTS
  {
    env.waypt.stop1 == order[1].isStop && env.waypt.laneChange1 == order[1].isLaneChange
  }

  /**
   * Reaching a way-point makes the stop line event exactly when it is the last goal and no
   * perimeter point: the stop lines of the map have no say.
   */
  lemma StopLineExactly(
      env: Road.Env, otherwise: Road.Event, nodes: seq<Node>, route: seq<Edge>, goals: Goals)
    requires Shows(env, OrderOf(nodes, route, goals)) && otherwise != Road.StopLine
    ensures Road.WayPointEvent(env, otherwise) == Road.StopLine <==>
      env.reached1 && !env.waypt.perimeter1 && RouteId(nodes, route, 1) == goals.first == goals.second
  {
    assert OrderOf(nodes, route, goals)[1] == OrderEntry(nodes, route, goals, 1);
  }

  /** A stop line of the map is the next way-point, and its entry of the order is no stop. */
  lemma StopMarkIsLost() returns (nodes: seq<Node>, route: seq<Edge>, goals: Goals)
    ensures SimpleRoute(nodes, route) && goals.first == RouteId(nodes, route, 2)
    ensures exists n :: NodeAt(nodes, route[0].end) == Some(n) && n.isStop
    ensures !OrderOf(nodes, route, goals)[1].isStop
  {
    var ids := [ElementId(1, 1, 1), ElementId(1, 1, 2), ElementId(1, 1, 3)];
    nodes, route, goals := Points(ids, [ids[1]]), Edges(2), Goals(ids[2], ids[2], {});
    Straight(ids, [ids[1]]);
    assert NodeAt(nodes, route[0].end) == Some(nodes[1]);
  }
}
