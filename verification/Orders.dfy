/**
 * Orders: the Commander walks its route to the last way-point reached and lists the next
 * way-points; the Navigator shifts an older order on its own.
 */
module Orders {
  import opened WayPoints
  import opened RoadGraph

  const N_WAYPTS := 5

  /** Order entry: the way-point, whether the lane changes after it, and its goal and stop marks. */
  datatype WayPoint = WayPoint(id: ElementId, isLaneChange: bool, isGoal: bool, isStop: bool)

  /** The next two goals of the mission, and the way-points that the map marks as checkpoints. */
  datatype Goals = Goals(first: ElementId, second: ElementId, checkpoints: set<ElementId>)

  datatype ZoneLimit = ZoneLimit(zone: int, speedLimit: real)

  class Order {
    const waypt: array<WayPoint>
    var minSpeed: real
    var maxSpeed: real
    var nextUturn: int

    constructor ()
      ensures Valid() && fresh(waypt)
    {
      waypt := new WayPoint[N_WAYPTS](_ => WayPoint(NULL_ID, false, false, false));
      minSpeed, maxSpeed, nextUturn := 0.0, 0.0, 0;
    }

    ghost predicate Valid() { waypt.Length == N_WAYPTS }
  }

  function IdAt(nodes: seq<Node>, index: Index): ElementId {
    match NodeAt(nodes, index) case None => NULL_ID case Some(n) => n.id
  }

  /** Identifier of the i-th way-point of a route, its last one past the end. */
  function RouteId(nodes: seq<Node>, route: seq<Edge>, i: nat): ElementId {
    IdAt(nodes, if i == 0 then RouteAt(route, 0).start else RouteAt(route, i - 1).end)
  }

  /**
   * The i-th entry of the order for a route; the flag of the last entry is never filled in. The
   * copy of a node drops its stop mark, so only the last goal of a mission is a stop.
   */
  function OrderEntry(nodes: seq<Node>, route: seq<Edge>, goals: Goals, i: nat): WayPoint {
    var id := RouteId(nodes, route, i);
    WayPoint(id, i + 1 < N_WAYPTS && RouteAt(route, i).isImplicit,
             id in goals.checkpoints || id == goals.first, id == goals.first == goals.second)
  }

  /** Way-points i and i + 1 of a route are a U-turn: two lanes of one segment, and no lane change. */
  predicate TurnsAt(nodes: seq<Node>, route: seq<Edge>, i: nat) {
    var a, b := RouteId(nodes, route, i), RouteId(nodes, route, i + 1);
    a.seg == b.seg && a.lane != b.lane && !RouteAt(route, i).isImplicit
  }

  /** The U-turn mark of an order that starts at way-point k: its first U-turn, counted from k, or -1. */
  ghost predicate FirstTurn(nodes: seq<Node>, route: seq<Edge>, k: nat, turn: int) {
    && -1 <= turn < N_WAYPTS - 1
    && (turn >= 0 ==> TurnsAt(nodes, route, k + turn))
    && forall i :: k <= i < k + (if turn >= 0 then turn else N_WAYPTS - 1) ==> !TurnsAt(nodes, route, i)
  }

  /** Zone j is the last one that holds both segment numbers. */
  predicate LastZone(zones: seq<ZoneLimit>, a: int, b: int, j: int) {
    0 <= j < |zones| && zones[j].zone == a == b && forall i :: j < i < |zones| ==> !(zones[i].zone == a == b)
  }

  /** The greatest speed of an order: the last zone of its first two way-points, otherwise the first edge. */
  ghost predicate TopSpeed(
      nodes: seq<Node>, route: seq<Edge>, zones: seq<ZoneLimit>, limit: real, top: real)
  {
    var a, b := RouteId(nodes, route, 0).seg, RouteId(nodes, route, 1).seg;
    && (forall j :: LastZone(zones, a, b, j) ==> top == Min(limit, zones[j].speedLimit))
    && ((forall z :: z in zones ==> !(z.zone == a == b)) ==> top == Min(limit, RouteAt(route, 0).speedMax))
  }

  predicate NodesKnown(nodes: seq<Node>, route: seq<Edge>) {
    forall e :: e in route ==> NodeAt(nodes, e.start).Some? && NodeAt(nodes, e.end).Some?
  }

  /** A route of known nodes without missing distances that visits no way-point twice. */
  ghost predicate SimpleRoute(nodes: seq<Node>, route: seq<Edge>) {
    && route != [] && NodesKnown(nodes, route)
    && (forall e :: e in route ==> e.distance >= 0.0)
    && (forall i :: 0 <= i < |route| - 1 ==> route[i].end == route[i + 1].start)
    && (forall i, j :: 0 <= i < j <= |route| ==> RouteId(nodes, route, i) != RouteId(nodes, route, j))
  }

  // ---------------------------------------------------------------- Commander

  /** The index of the node that entry i of an order names. */
  function EntryIndex(route: seq<Edge>, i: nat): Index {
    if i == 0 then RouteAt(route, 0).start else RouteAt(route, i - 1).end
  }

  /** Entry i can be filled in: its edge has a distance and its node exists. */
  predicate Available(nodes: seq<Node>, route: seq<Edge>, i: nat) {
    RouteAt(route, if i == 0 then 0 else i - 1).distance >= 0.0 && NodeAt(nodes, EntryIndex(route, i)).Some?
  }

  /** Fill the way-points of an order; false when one is missing. */
  method FillWayPoints(nodes: seq<Node>, route: seq<Edge>, goals: Goals, limit: real, order: Order)
    returns (ok: bool)
    requires order.Valid()
    modifies order, order.waypt
    ensures ok <==> forall i :: 0 <= i < N_WAYPTS ==> Available(nodes, route, i)
    ensures ok ==> forall i :: 0 <= i < N_WAYPTS ==> order.waypt[i] == OrderEntry(nodes, route, goals, i)
    ensures ok ==> order.minSpeed == Min(limit, RouteAt(route, 0).speedMin)
    ensures ok ==> order.maxSpeed == Min(limit, RouteAt(route, 0).speedMax)
  {
    for i := 0 to N_WAYPTS
      invariant forall j :: 0 <= j < i ==> Available(nodes, route, j)
      invariant forall j :: 0 <= j < i ==>
        var flag := j + 1 < i && RouteAt(route, j).isImplicit;
        order.waypt[j] == OrderEntry(nodes, route, goals, j).(isLaneChange := flag)
      invariant i > 0 ==> order.minSpeed == Min(limit, RouteAt(route, 0).speedMin)
      invariant i > 0 ==> order.maxSpeed == Min(limit, RouteAt(route, 0).speedMax)
    {
      var edge := RouteAt(route, if i == 0 then 0 else i - 1);
      if edge.distance < 0.0 {
        assert !Available(nodes, route, i);
        return false;
      }
      if i == 0 {
        order.minSpeed, order.maxSpeed := Min(limit, edge.speedMin), Min(limit, edge.speedMax);
      } else {
        order.waypt[i - 1] := order.waypt[i - 1].(isLaneChange := edge.isImplicit);
      }
      var node := NodeAt(nodes, EntryIndex(route, i));
      if node.None? {
        assert !Available(nodes, route, i);
        return false;
      }
      order.waypt[i] := Marked(node.value.id, goals);
    }
    ok := true;
  }

  /** The copy of a node in an order, with its goal marks. */
  function Marked(id: ElementId, goals: Goals): WayPoint {
    var w := WayPoint(id, false, id in goals.checkpoints, false);
    if id == goals.first then w.(isGoal := true, isStop := id == goals.second) else w
  }

  /** Prepare an order with its way-points, speeds and U-turn; false when it must be an Abort. */
  method PrepareOrder(
      nodes: seq<Node>, route: seq<Edge>, goals: Goals, zones: seq<ZoneLimit>, limit: real, order: Order)
    returns (ok: bool)
    requires order.Valid()
    modifies order, order.waypt
    ensures ok <==> forall i :: 0 <= i < N_WAYPTS ==> Available(nodes, route, i)
    ensures ok ==> order.waypt[..] == OrderOf(nodes, route, goals)
    ensures ok ==> order.minSpeed == Min(limit, RouteAt(route, 0).speedMin)
    ensures ok ==> TopSpeed(nodes, route, zones, limit, order.maxSpeed)
    ensures ok ==> FirstTurn(nodes, route, 0, order.nextUturn)
  {
    ok := FillWayPoints(nodes, route, goals, limit, order);
    if !ok { return; }
    assert order.waypt[..] == OrderOf(nodes, route, goals);
    order.maxSpeed := ZoneSpeed(zones, order.waypt[0].id.seg, order.waypt[1].id.seg, limit, order.maxSpeed);
    order.nextUturn := FindUturn(nodes, route, goals, order.waypt);
  }

  method ZoneSpeed(zones: seq<ZoneLimit>, a: int, b: int, limit: real, otherwise: real) returns (top: real)
    ensures forall j :: LastZone(zones, a, b, j) ==> top == Min(limit, zones[j].speedLimit)
    ensures (forall z :: z in zones ==> !(z.zone == a == b)) ==> top == otherwise
  {
    top := otherwise;
    for j := 0 to |zones|
      invariant forall i :: 0 <= i < j && zones[i].zone == a == b && (forall l :: i < l < j ==> !(zones[l].zone == a == b)) ==>
        top == Min(limit, zones[i].speedLimit)
      invariant (forall i :: 0 <= i < j ==> !(zones[i].zone == a == b)) ==> top == otherwise
    {
      if zones[j].zone == a == b { top := Min(limit, zones[j].speedLimit); }
    }
  }

  method FindUturn(nodes: seq<Node>, route: seq<Edge>, goals: Goals, waypt: array<WayPoint>) returns (turn: int)
    requires waypt[..] == OrderOf(nodes, route, goals)
    ensures FirstTurn(nodes, route, 0, turn)
  {
    for i := 0 to N_WAYPTS - 1
      invariant forall j :: 0 <= j < i ==> !TurnsAt(nodes, route, j)
    {
      var a, b := waypt[..][i], waypt[..][i + 1];
      if a.id.seg == b.id.seg && a.id.lane != b.id.lane && !a.isLaneChange { return i; }
    }
    turn := -1;
  }

  /** The route after walking it to the last way-point reached. */
  function Walked(nodes: seq<Node>, route: seq<Edge>, last: ElementId): (r: seq<Edge>)
    ensures route != [] ==> r != []
    decreases |route|
  {
    var r := Popped(route);
    if |r| > 1 && IdAt(nodes, r[0].start) != last then Walked(nodes, r, last) else r
  }

  /** The way-points looked at on the walk, in order. */
  function Seen(nodes: seq<Node>, route: seq<Edge>, last: ElementId): seq<ElementId>
    requires route != []
    decreases |route|
  {
    var r := Popped(route);
    var way := IdAt(nodes, r[0].start);
    if way == last then [way]
    else if |r| > 1 then [way] + Seen(nodes, r, last)
    else [way, IdAt(nodes, r[0].end)]
  }

  /** The same, appended to those looked at before. */
  function SeenAfter(nodes: seq<Node>, route: seq<Edge>, last: ElementId, seen: seq<ElementId>): seq<ElementId>
    requires route != []
    decreases |route|
  {
    var r := Popped(route);
    var way := IdAt(nodes, r[0].start);
    if way == last then seen + [way]
    else if |r| > 1 then SeenAfter(nodes, r, last, seen + [way])
    else seen + [way] + [IdAt(nodes, r[0].end)]
  }

  lemma {:induction false} SeenAfterAppends(nodes: seq<Node>, route: seq<Edge>, last: ElementId, seen: seq<ElementId>)
    requires route != []
    ensures SeenAfter(nodes, route, last, seen) == seen + Seen(nodes, route, last)
    decreases |route|
  {
    var r := Popped(route);
    if IdAt(nodes, r[0].start) != last && |r| > 1 {
      SeenAfterAppends(nodes, r, last, seen + [IdAt(nodes, r[0].start)]);
    }
  }

  datatype WalkResult = Fail | Reached(way: ElementId, goal: bool, goal2: bool)

  lemma {:induction false} WalkedSuffix(nodes: seq<Node>, route: seq<Edge>, last: ElementId) returns (k: nat)
    requires |route| > 1
    ensures 1 <= k < |route| && Walked(nodes, route, last) == route[k..]
    ensures forall i :: 1 <= i < k ==> IdAt(nodes, route[i].start) != last
    ensures k == |route| - 1 || IdAt(nodes, route[k].start) == last
    decreases |route|
  {
    var r := route[1..];
    if |r| > 1 && IdAt(nodes, r[0].start) != last {
      var j := WalkedSuffix(nodes, r, last);
      k := j + 1;
      assert r[j..] == route[k..];
      forall i | 1 <= i < k ensures IdAt(nodes, route[i].start) != last {
        assert i > 1 ==> r[i - 1] == route[i];
      }
    } else {
      k := 1;
    }
  }

  /**
   * Walk the route until its first way-point is the last one reached, or one edge is left;
   * note the goals that are passed.
   */
  method WalkRoute(nodes: seq<Node>, route: Path, last: ElementId, goal: ElementId, goal2: ElementId)
    returns (r: WalkResult)
    requires route.path != []
    modifies route
    ensures r.Reached? ==> route.path == Walked(nodes, old(route.path), last)
    ensures NodesKnown(nodes, old(route.path)) ==> r.Reached?
    ensures r.Reached? ==> var seen := Seen(nodes, old(route.path), last);
      r.way == seen[|seen| - 1] && r.goal == (goal in seen) && r.goal2 == (goal2 in seen)
  {
    var found, way, newGoal, newGoal2, _ := WalkEdges(nodes, route, last, goal, goal2);
    if !found { return Fail; }
    if last != way {
      var node := NodeAt(nodes, route.path[0].end);
      if node.None? { return Fail; }
      way := node.value.id;
      newGoal := newGoal || way == goal;
      newGoal2 := newGoal2 || way == goal2;
    }
    r := Reached(way, newGoal, newGoal2);
  }

  /** The loop of the walk: drop edges until the start of the first one is reached, or one is left. */
  method WalkEdges(nodes: seq<Node>, route: Path, last: ElementId, goal: ElementId, goal2: ElementId)
    returns (found: bool, way: ElementId, newGoal: bool, newGoal2: bool, ghost seen: seq<ElementId>)
    requires route.path != []
    modifies route
    ensures route.path != [] && forall e :: e in route.path ==> e in old(route.path)
    ensures NodesKnown(nodes, old(route.path)) ==> found
    ensures found ==> route.path == Walked(nodes, old(route.path), last) && seen != [] && way == seen[|seen| - 1]
    ensures found ==> newGoal == (goal in seen) && newGoal2 == (goal2 in seen)
    ensures found ==>
      Seen(nodes, old(route.path), last) == if way == last then seen else seen + [IdAt(nodes, route.path[0].end)]
  {
    newGoal, newGoal2, way, seen, found := false, false, NULL_ID, [], true;
    var more := true;
    SeenAfterAppends(nodes, route.path, last, []);
    ghost var all := Seen(nodes, route.path, last);
    assert [] + all == all;
    while more
      invariant route.path != [] && (forall e :: e in route.path ==> e in old(route.path))
      invariant more ==> Walked(nodes, route.path, last) == Walked(nodes, old(route.path), last)
      invariant more ==> SeenAfter(nodes, route.path, last, seen) == all
      invariant !more ==> route.path == Walked(nodes, old(route.path), last)
      invariant !more ==> seen != [] && way == seen[|seen| - 1]
      invariant !more ==> all == if way == last then seen else seen + [IdAt(nodes, route.path[0].end)]
      invariant newGoal == (goal in seen) && newGoal2 == (goal2 in seen)
      decreases more, |route.path|
    {
      route.PopFront();
      var node := NodeAt(nodes, route.path[0].start);
      if node.None? {
        found := false;
        return;
      }
      way := node.value.id;
      newGoal := newGoal || way == goal;
      newGoal2 := newGoal2 || way == goal2;
      more := last != way && |route.path| > 1;
      seen := seen + [way];
    }
  }

  // ---------------------------------------------------------------- Navigator

  /** An order advanced by k entries, its last one repeated. */
  function Shifted<T>(s: seq<T>, k: nat): (r: seq<T>)
    requires s != []
    ensures |r| == |s| && forall i :: 0 <= i < |s| ==> r[i] == s[if i + k < |s| then i + k else |s| - 1]
  {
    seq(|s|, i requires 0 <= i < |s| => s[if i + k < |s| then i + k else |s| - 1])
  }

  /** What the search loop of begin_run_cycle makes of an order. */
  function Advanced(s: seq<WayPoint>, last: ElementId, limit: nat): (r: seq<WayPoint>)
    requires s != []
    ensures |r| == |s|
    decreases limit
  {
    if s[0].id != last && limit > 1 then Advanced(Shifted(s, 1), last, limit - 1) else s
  }

  method ShiftOne(waypt: array<WayPoint>)
    requires waypt.Length == N_WAYPTS
    modifies waypt
    ensures waypt[..] == Shifted(old(waypt[..]), 1)
  {
    for i := 1 to N_WAYPTS
      invariant forall j :: 0 <= j < i - 1 ==> waypt[j] == old(waypt[j + 1])
      invariant forall j :: i - 1 <= j < N_WAYPTS ==> waypt[j] == old(waypt[j])
    {
      waypt[i - 1] := waypt[i];
    }
  }

  /** Advance the order in place until its first entry is the last way-point reached. */
  method BeginRunCycle(order: Order, last: ElementId)
    requires order.Valid()
    modifies order.waypt
    ensures order.waypt[..] == Advanced(old(order.waypt[..]), last, N_WAYPTS)
  {
    var limit, waypt := N_WAYPTS, order.waypt;
    while waypt[..][0].id != last && limit > 1
      invariant 0 <= limit && Advanced(waypt[..], last, limit) == Advanced(old(waypt[..]), last, N_WAYPTS)
    {
      limit := limit - 1;
      ShiftOne(waypt);
    }
  }

  lemma ShiftedAgain<T>(s: seq<T>, k: nat)
    requires s != []
    ensures Shifted(Shifted(s, 1), k) == Shifted(s, k + 1)
  {}

  /** If entry k is the first to name the last way-point, the order is advanced by exactly k. */
  lemma {:induction false} AdvancedShifts(s: seq<WayPoint>, last: ElementId, k: nat, limit: nat)
    requires k < |s| && k < limit && s[k].id == last && forall i :: 0 <= i < k ==> s[i].id != last
    ensures Advanced(s, last, limit) == Shifted(s, k)
    decreases k
  {
    if k == 0 {
      assert Shifted(s, 0) == s;
    } else {
      var t := Shifted(s, 1);
      AdvancedShifts(t, last, k - 1, limit - 1);
      ShiftedAgain(s, k - 1);
    }
  }

  lemma {:induction false} AdvancedStops(s: seq<WayPoint>, last: ElementId, limit: nat)
    requires s != [] && limit > 0
    ensures var t := Advanced(s, last, limit); t[0].id == last || t == Shifted(s, limit - 1)
    decreases limit
  {
    if s[0].id != last && limit > 1 {
      AdvancedStops(Shifted(s, 1), last, limit - 1);
      ShiftedAgain(s, limit - 2);
    } else {
      assert Shifted(s, 0) == s;
    }
  }

  /**
   * After the shift an order either starts with the last way-point reached and goes on to another
   * one, or names a single way-point in its first two entries.
   */
  lemma AdvancedFront(s: seq<WayPoint>, last: ElementId)
    requires |s| == N_WAYPTS
    ensures var t := Advanced(s, last, N_WAYPTS); t[0].id != t[1].id ==> t[0].id == last && t[1].id != last
  {
    AdvancedStops(s, last, N_WAYPTS);
  }

  // ---------------------------------------------------------------- agreement

  function OrderOf(nodes: seq<Node>, route: seq<Edge>, goals: Goals): (r: seq<WayPoint>)
    ensures |r| == N_WAYPTS && forall i :: 0 <= i < N_WAYPTS ==> r[i] == OrderEntry(nodes, route, goals, i)
  {
    seq(N_WAYPTS, i requires 0 <= i => OrderEntry(nodes, route, goals, i))
  }

  /** The shifted old order names the same way-points as the new one, as far as it reaches. */
  predicate Agrees(shifted: seq<WayPoint>, ordered: seq<WayPoint>, k: nat)
    requires |shifted| == |ordered| == N_WAYPTS
  {
    && (forall i :: 0 <= i < N_WAYPTS - k ==> shifted[i].id == ordered[i].id)
    && (forall i :: 0 <= i < N_WAYPTS - k - 1 ==> shifted[i].isLaneChange == ordered[i].isLaneChange)
  }

  lemma RouteIdIsStart(nodes: seq<Node>, route: seq<Edge>, i: nat)
    requires SimpleRoute(nodes, route) && i < |route|
    ensures RouteId(nodes, route, i) == IdAt(nodes, route[i].start)
  {
    if i > 0 { assert route[i - 1].end == route[i].start; }
  }

  /** Walking to the k-th way-point, short of the route's end, drops exactly k edges. */
  lemma WalkStopsAt(nodes: seq<Node>, route: seq<Edge>, k: nat)
    requires SimpleRoute(nodes, route) && 1 <= k < |route|
    ensures Walked(nodes, route, RouteId(nodes, route, k)) == route[k..]
  {
    var last := RouteId(nodes, route, k);
    var j := WalkedSuffix(nodes, route, last);
    RouteIdIsStart(nodes, route, k);
    RouteIdIsStart(nodes, route, j);
  }

  lemma SuffixIds(nodes: seq<Node>, route: seq<Edge>, k: nat, i: nat)
    requires SimpleRoute(nodes, route) && k < |route|
    ensures RouteId(nodes, route[k..], i) == RouteId(nodes, route, i + k)
    ensures RouteAt(route[k..], i) == RouteAt(route, i + k)
  {
    if i == 0 { RouteIdIsStart(nodes, route, k); }
  }

  /**
   * The Navigator's shift agrees with the order the Commander builds after walking its route
   * exactly when the last way-point reached is not the end of the route.
   */
  lemma OrdersAgree(nodes: seq<Node>, route: seq<Edge>, before: Goals, now: Goals, k: nat)
    requires SimpleRoute(nodes, route) && 1 <= k < N_WAYPTS && k <= |route|
    ensures k < |route| <==> Agrees(Advanced(OrderOf(nodes, route, before), RouteId(nodes, route, k), N_WAYPTS),
                                    OrderOf(nodes, Walked(nodes, route, RouteId(nodes, route, k)), now), k)
  {
    var last := RouteId(nodes, route, k);
    AdvancedShifts(OrderOf(nodes, route, before), last, k, N_WAYPTS);
    var shifted := Shifted(OrderOf(nodes, route, before), k);
    if k < |route| {
      WalkStopsAt(nodes, route, k);
      SuffixAgrees(nodes, route, before, now, k);
    } else {
      WalkToEnd(nodes, route);
      assert shifted[0].id == last;
    }
  }

  lemma SuffixAgrees(nodes: seq<Node>, route: seq<Edge>, before: Goals, now: Goals, k: nat)
    requires SimpleRoute(nodes, route) && 1 <= k < N_WAYPTS && k < |route|
    ensures Agrees(Shifted(OrderOf(nodes, route, before), k), OrderOf(nodes, route[k..], now), k)
  {
    var shifted, ordered := Shifted(OrderOf(nodes, route, before), k), OrderOf(nodes, route[k..], now);
    forall i | 0 <= i < N_WAYPTS - k
      ensures shifted[i].id == ordered[i].id
      ensures i < N_WAYPTS - k - 1 ==> shifted[i].isLaneChange == ordered[i].isLaneChange
    {
      SuffixIds(nodes, route, k, i);
      assert shifted[i] == OrderEntry(nodes, route, before, i + k);
    }
  }

  /** At the end of the route one edge is kept, so the new order starts one way-point too early. */
  lemma WalkToEnd(nodes: seq<Node>, route: seq<Edge>)
    requires SimpleRoute(nodes, route)
    ensures Walked(nodes, route, RouteId(nodes, route, |route|)) == route[|route| - 1..]
    ensures RouteId(nodes, route[|route| - 1..], 0) == RouteId(nodes, route, |route| - 1)
  {
    var m, last := |route|, RouteId(nodes, route, |route|);
    RouteIdIsStart(nodes, route, m - 1);
    if m > 1 {
      var j := WalkedSuffix(nodes, route, last);
      RouteIdIsStart(nodes, route, j);
    } else {
      assert route[m - 1..] == route;
    }
  }

  ghost predicate Contiguous(route: seq<Edge>) {
    forall i :: 0 <= i < |route| - 1 ==> route[i].end == route[i + 1].start
  }

  lemma TailIds(nodes: seq<Node>, route: seq<Edge>, i: nat)
    requires Contiguous(route) && |route| > 1
    ensures RouteId(nodes, route[1..], i) == RouteId(nodes, route, i + 1)
  {
    if i == 0 { assert route[0].end == route[1].start; }
  }

  lemma SeenCons(nodes: seq<Node>, route: seq<Edge>, last: ElementId)
    requires |route| > 1 && Contiguous(route)
    ensures var first, r := RouteId(nodes, route, 1), route[1..];
      Seen(nodes, route, last) ==
        if first == last then [first]
        else if |r| > 1 then [first] + Seen(nodes, r, last)
        else [first, RouteId(nodes, route, 2)]
  {
    assert route[0].end == route[1].start;
  }

  /** The walk looks at every way-point from the second up to the last one reached, in order. */
  lemma {:induction false} SeenIsRoute(nodes: seq<Node>, route: seq<Edge>, k: nat, last: ElementId)
    requires Contiguous(route) && |route| > 1 && 1 <= k <= |route|
    requires RouteId(nodes, route, k) == last && forall j :: 1 <= j < k ==> RouteId(nodes, route, j) != last
    ensures |Seen(nodes, route, last)| == k
    ensures forall i :: 0 <= i < k ==> Seen(nodes, route, last)[i] == RouteId(nodes, route, i + 1)
    decreases |route|
  {
    var r := route[1..];
    SeenCons(nodes, route, last);
    if k > 1 && |r| > 1 {
      forall j | 0 <= j < k ensures RouteId(nodes, r, j) == RouteId(nodes, route, j + 1) {
        TailIds(nodes, route, j);
      }
      SeenIsRoute(nodes, r, k - 1, last);
    }
  }

  /** A goal is noted on the walk exactly when it lies between the old and the new position. */
  lemma GoalsNoted(nodes: seq<Node>, route: seq<Edge>, k: nat, goal: ElementId)
    requires SimpleRoute(nodes, route) && |route| > 1 && 1 <= k <= |route|
    ensures goal in Seen(nodes, route, RouteId(nodes, route, k))
      <==> exists i :: 1 <= i <= k && RouteId(nodes, route, i) == goal
  {
    var last := RouteId(nodes, route, k);
    SeenIsRoute(nodes, route, k, last);
    var seen := Seen(nodes, route, last);
    if goal in seen {
      var j :| 0 <= j < |seen| && seen[j] == goal;
      assert RouteId(nodes, route, j + 1) == goal;
    }
    if i :| 1 <= i <= k && RouteId(nodes, route, i) == goal {
      assert seen[i - 1] == goal;
    }
  }
}
