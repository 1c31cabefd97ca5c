/** Numbering, flags and edges of the way-point graph of a parsed RNDF. */
module GraphBuilding {
  import opened WayPoints
  import opened RndfGraph
  import opened RoadGraph
  import Rndf

  // ---------------------------------------------------------------- references

  function StartId(e: Rndf.Exit): ElementId { NewId(e.start.seg, e.start.lane, e.start.pt) }
  function EndId(e: Rndf.Exit): ElementId { NewId(e.end.seg, e.end.lane, e.end.pt) }

  predicate Known(m: IdMap, e: Rndf.Exit) { StartId(e) in m && EndId(e) in m }

  predicate AllKnown(m: IdMap, exits: seq<Rndf.Exit>) { forall e :: e in exits ==> Known(m, e) }

  predicate LaneResolved(m: IdMap, seg: int, l: Rndf.Lane) {
    && (forall c :: c in l.checkpoints ==> NewId(seg, l.id, c.waypoint) in m)
    && (forall p :: p in l.stops ==> NewId(seg, l.id, p) in m)
    && AllKnown(m, l.exits)
  }

  predicate ZoneResolved(m: IdMap, z: Rndf.Zone) { AllKnown(m, z.perimeter.exits) }

  predicate SegmentResolved(m: IdMap, s: Rndf.Segment) { forall l :: l in s.lanes ==> LaneResolved(m, s.id, l) }

  /** Every checkpoint, stop and exit of the file names way-points that exist. */
  predicate Resolved(m: IdMap, f: Rndf.File) {
    (forall z :: z in f.zones ==> ZoneResolved(m, z)) && (forall s :: s in f.segments ==> SegmentResolved(m, s))
  }

  lemma KnownSame(m: IdMap, m': IdMap, e: Rndf.Exit)
    requires m.Keys == m'.Keys
    ensures Known(m, e) <==> Known(m', e)
  {
    assert forall id :: id in m <==> id in m';
  }

  lemma ZoneResolvedSame(m: IdMap, m': IdMap, z: Rndf.Zone)
    requires m.Keys == m'.Keys
    ensures ZoneResolved(m, z) <==> ZoneResolved(m', z)
  {
    forall e | e in z.perimeter.exits ensures Known(m, e) <==> Known(m', e) { KnownSame(m, m', e); }
  }

  lemma ResolvedSame(m: IdMap, m': IdMap, seg: int, l: Rndf.Lane)
    requires m.Keys == m'.Keys
    ensures LaneResolved(m, seg, l) <==> LaneResolved(m', seg, l)
  {
    assert forall id :: id in m <==> id in m';
  }

  // ---------------------------------------------------------------- edges

  function At(m: IdMap, id: ElementId): Node { if id in m then m[id] else CLEAR_NODE }

  function EdgeBetween(a: Node, b: Node, isExit: bool): Edge {
    Edge(a.index, b.index, -1.0, 0.0, 0.0, isExit, false, false)
  }

  function PointId(seg: int, l: Rndf.Lane, i: nat): ElementId
    requires i < |l.waypoints|
  {
    NewId(seg, l.id, l.waypoints[i].id)
  }

  function LaneEdge(m: IdMap, seg: int, l: Rndf.Lane, i: nat): Edge
    requires i + 1 < |l.waypoints|
  {
    EdgeBetween(At(m, PointId(seg, l, i)), At(m, PointId(seg, l, i + 1)), false)
  }

  /** An edge from each way-point of a lane to the next. */
  function LaneEdges(m: IdMap, seg: int, l: Rndf.Lane): (r: seq<Edge>)
    ensures |r| == if l.waypoints == [] then 0 else |l.waypoints| - 1
  {
    var n := if l.waypoints == [] then 0 else |l.waypoints| - 1;
    seq(n, i requires 0 <= i < n => LaneEdge(m, seg, l, i))
  }

  function LanesEdges(m: IdMap, seg: int, lanes: seq<Rndf.Lane>): seq<Edge> {
    if lanes == [] then []
    else LanesEdges(m, seg, lanes[..|lanes| - 1]) + LaneEdges(m, seg, lanes[|lanes| - 1])
  }

  function RoadEdges(m: IdMap, segments: seq<Rndf.Segment>): seq<Edge> {
    if segments == [] then []
    else
      var s := segments[|segments| - 1];
      RoadEdges(m, segments[..|segments| - 1]) + LanesEdges(m, s.id, s.lanes)
  }

  /** Mark the first edge between the two indices as an exit. */
  function MarkFirst(edges: seq<Edge>, start: int, end: int): (r: seq<Edge>)
    ensures |r| == |edges|
  {
    if edges == [] then []
    else if edges[0].start == start && edges[0].end == end then [edges[0].(isExit := true)] + edges[1..]
    else [edges[0]] + MarkFirst(edges[1..], start, end)
  }

  predicate IsNext(a: ElementId, b: ElementId) { a.seg == b.seg && a.lane == b.lane && a.pt + 1 == b.pt }

  /** An exit to the next way-point of its lane only marks the lane's edge. */
  function WithExit(m: IdMap, edges: seq<Edge>, e: Rndf.Exit): seq<Edge> {
    if IsNext(StartId(e), EndId(e)) then MarkFirst(edges, At(m, StartId(e)).index, At(m, EndId(e)).index)
    else edges + [EdgeBetween(At(m, StartId(e)), At(m, EndId(e)), true)]
  }

  function WithExits(m: IdMap, edges: seq<Edge>, exits: seq<Rndf.Exit>): seq<Edge> {
    if exits == [] then edges
    else WithExit(m, WithExits(m, edges, exits[..|exits| - 1]), exits[|exits| - 1])
  }

  function WithLaneExits(m: IdMap, edges: seq<Edge>, lanes: seq<Rndf.Lane>): seq<Edge> {
    if lanes == [] then edges
    else WithExits(m, WithLaneExits(m, edges, lanes[..|lanes| - 1]), lanes[|lanes| - 1].exits)
  }

  function WithRoadExits(m: IdMap, edges: seq<Edge>, segments: seq<Rndf.Segment>): seq<Edge> {
    if segments == [] then edges
    else WithLaneExits(m, WithRoadExits(m, edges, segments[..|segments| - 1]), segments[|segments| - 1].lanes)
  }

  function ExitEdges(m: IdMap, exits: seq<Rndf.Exit>): (r: seq<Edge>)
    ensures |r| == |exits|
  {
    seq(|exits|, i requires 0 <= i < |exits| => EdgeBetween(At(m, StartId(exits[i])), At(m, EndId(exits[i])), true))
  }

  function ZoneExitEdges(m: IdMap, zones: seq<Rndf.Zone>): seq<Edge> {
    if zones == [] then []
    else ZoneExitEdges(m, zones[..|zones| - 1]) + ExitEdges(m, zones[|zones| - 1].perimeter.exits)
  }

  /** The three passes that connect the way-points of a zone. */
  datatype Pass = Across | ToSpots | BetweenSpots

  /** The edges that a pass adds for one ordered pair of nodes. */
  function Links(pass: Pass, a: Node, b: Node): seq<Edge> {
    if a.id == b.id || a.id.seg != b.id.seg then []
    else
      match pass
      case Across =>
        if a.isEntry && a.isPerimeter && b.isPerimeter && b.isExit && a.id.pt != b.id.pt
        then [EdgeBetween(a, b, false)] else []
      case ToSpots =>
        if !b.isSpot || b.id.pt != 1 then []
        else (if a.isExit then [EdgeBetween(b, a, false)] else []) + (if a.isEntry then [EdgeBetween(a, b, false)] else [])
      case BetweenSpots =>
        if !a.isSpot || !b.isSpot || a.id.pt != 1 || b.id.pt != (if a.id.lane == b.id.lane then 2 else 1) then []
        else [EdgeBetween(a, b, false), EdgeBetween(b, a, false)]
  }

  function LinksFrom(pass: Pass, m: IdMap, a: Node, order: seq<ElementId>): seq<Edge> {
    if order == [] then []
    else LinksFrom(pass, m, a, order[..|order| - 1]) + Links(pass, a, At(m, order[|order| - 1]))
  }

  /** All links from the nodes of one list to those of another. */
  function AllLinks(pass: Pass, m: IdMap, from: seq<ElementId>, order: seq<ElementId>): seq<Edge> {
    if from == [] then []
    else AllLinks(pass, m, from[..|from| - 1], order) + LinksFrom(pass, m, At(m, from[|from| - 1]), order)
  }

  /** Every edge of the graph of a file, in the order in which they are made. */
  function AllEdges(m: IdMap, f: Rndf.File, order: seq<ElementId>): seq<Edge> {
    WithRoadExits(m, RoadEdges(m, f.segments), f.segments)
    + ZoneExitEdges(m, f.zones)
    + AllLinks(Across, m, order, order)
    + AllLinks(ToSpots, m, order, order)
    + AllLinks(BetweenSpots, m, order, order)
  }

  // ---------------------------------------------------------------- edges stay in range

  ghost predicate Bounded(m: IdMap, n: nat) { n > 0 && forall id :: id in m ==> m[id].index < n }

  lemma BetweenInRange(m: IdMap, n: nat, x: ElementId, y: ElementId, isExit: bool)
    requires Bounded(m, n)
    ensures InRange([EdgeBetween(At(m, x), At(m, y), isExit)], n)
  {
  }

  lemma {:induction false} LanesInRange(m: IdMap, n: nat, seg: int, lanes: seq<Rndf.Lane>)
    requires Bounded(m, n)
    ensures InRange(LanesEdges(m, seg, lanes), n)
  {
    if lanes != [] {
      LanesInRange(m, n, seg, lanes[..|lanes| - 1]);
      var l := lanes[|lanes| - 1];
      assert InRange(LaneEdges(m, seg, l), n);
    }
  }

  lemma {:induction false} RoadInRange(m: IdMap, n: nat, segments: seq<Rndf.Segment>)
    requires Bounded(m, n)
    ensures InRange(RoadEdges(m, segments), n)
  {
    if segments != [] {
      RoadInRange(m, n, segments[..|segments| - 1]);
      LanesInRange(m, n, segments[|segments| - 1].id, segments[|segments| - 1].lanes);
    }
  }

  lemma {:induction false} MarkInRange(edges: seq<Edge>, start: int, end: int, n: nat)
    requires InRange(edges, n)
    ensures InRange(MarkFirst(edges, start, end), n)
  {
    if edges != [] {
      assert forall e :: e in edges[1..] ==> e in edges;
      assert edges[0] in edges;
      MarkInRange(edges[1..], start, end, n);
    }
  }

  lemma {:induction false} ExitsInRange(m: IdMap, n: nat, edges: seq<Edge>, exits: seq<Rndf.Exit>)
    requires Bounded(m, n) && InRange(edges, n)
    ensures InRange(WithExits(m, edges, exits), n)
  {
    if exits != [] {
      var e := exits[|exits| - 1];
      var before := WithExits(m, edges, exits[..|exits| - 1]);
      ExitsInRange(m, n, edges, exits[..|exits| - 1]);
      MarkInRange(before, At(m, StartId(e)).index, At(m, EndId(e)).index, n);
      BetweenInRange(m, n, StartId(e), EndId(e), true);
    }
  }

  lemma {:induction false} LaneExitsInRange(m: IdMap, n: nat, edges: seq<Edge>, lanes: seq<Rndf.Lane>)
    requires Bounded(m, n) && InRange(edges, n)
    ensures InRange(WithLaneExits(m, edges, lanes), n)
  {
    if lanes != [] {
      LaneExitsInRange(m, n, edges, lanes[..|lanes| - 1]);
      ExitsInRange(m, n, WithLaneExits(m, edges, lanes[..|lanes| - 1]), lanes[|lanes| - 1].exits);
    }
  }

  lemma {:induction false} RoadExitsInRange(m: IdMap, n: nat, edges: seq<Edge>, segments: seq<Rndf.Segment>)
    requires Bounded(m, n) && InRange(edges, n)
    ensures InRange(WithRoadExits(m, edges, segments), n)
  {
    if segments != [] {
      RoadExitsInRange(m, n, edges, segments[..|segments| - 1]);
      LaneExitsInRange(m, n, WithRoadExits(m, edges, segments[..|segments| - 1]), segments[|segments| - 1].lanes);
    }
  }

  lemma {:induction false} ZoneExitsInRange(m: IdMap, n: nat, zones: seq<Rndf.Zone>)
    requires Bounded(m, n)
    ensures InRange(ZoneExitEdges(m, zones), n)
  {
    if zones != [] {
      ZoneExitsInRange(m, n, zones[..|zones| - 1]);
      assert InRange(ExitEdges(m, zones[|zones| - 1].perimeter.exits), n);
    }
  }

  lemma {:induction false} LinksFromInRange(pass: Pass, m: IdMap, n: nat, a: Node, order: seq<ElementId>)
    requires Bounded(m, n) && a.index < n
    ensures InRange(LinksFrom(pass, m, a, order), n)
  {
    if order != [] {
      LinksFromInRange(pass, m, n, a, order[..|order| - 1]);
      assert InRange(Links(pass, a, At(m, order[|order| - 1])), n);
    }
  }

  lemma {:induction false} AllLinksInRange(pass: Pass, m: IdMap, n: nat, from: seq<ElementId>, order: seq<ElementId>)
    requires Bounded(m, n)
    ensures InRange(AllLinks(pass, m, from, order), n)
  {
    if from != [] {
      AllLinksInRange(pass, m, n, from[..|from| - 1], order);
      LinksFromInRange(pass, m, n, At(m, from[|from| - 1]), order);
    }
  }

  /** Whatever the file refers to, its edges only join indices that the map uses. */
  lemma AllEdgesInRange(m: IdMap, n: nat, f: Rndf.File, order: seq<ElementId>)
    requires Bounded(m, n)
    ensures InRange(AllEdges(m, f, order), n)
  {
    RoadInRange(m, n, f.segments);
    RoadExitsInRange(m, n, RoadEdges(m, f.segments), f.segments);
    ZoneExitsInRange(m, n, f.zones);
    AllLinksInRange(Across, m, n, order, order);
    AllLinksInRange(ToSpots, m, n, order, order);
    AllLinksInRange(BetweenSpots, m, n, order, order);
  }

  // A file without way-points has no edges.

  lemma {:induction false} NoLaneEdges(seg: int, lanes: seq<Rndf.Lane>)
    requires LaneVertices(seg, lanes) == []
    ensures LanesEdges(map[], seg, lanes) == []
  {
    if lanes != [] {
      var l := lanes[|lanes| - 1];
      assert |VerticesOf(seg, l.id, l.waypoints, false, false)| == 0;
      NoLaneEdges(seg, lanes[..|lanes| - 1]);
    }
  }

  lemma {:induction false} NoRoadEdges(segments: seq<Rndf.Segment>)
    requires RoadVertices(segments) == []
    ensures RoadEdges(map[], segments) == []
  {
    if segments != [] {
      var s := segments[|segments| - 1];
      assert |LaneVertices(s.id, s.lanes)| == 0;
      NoRoadEdges(segments[..|segments| - 1]);
      NoLaneEdges(s.id, s.lanes);
    }
  }

  lemma {:induction false} NoLaneExits(seg: int, lanes: seq<Rndf.Lane>, edges: seq<Edge>)
    requires forall l :: l in lanes ==> LaneResolved(map[], seg, l)
    ensures WithLaneExits(map[], edges, lanes) == edges
  {
    if lanes != [] {
      var l := lanes[|lanes| - 1];
      assert LaneResolved(map[], seg, l);
      assert |l.exits| > 0 ==> Known(map[], l.exits[0]);
      NoLaneExits(seg, lanes[..|lanes| - 1], edges);
    }
  }

  lemma {:induction false} NoRoadExits(segments: seq<Rndf.Segment>, edges: seq<Edge>)
    requires forall s :: s in segments ==> SegmentResolved(map[], s)
    ensures WithRoadExits(map[], edges, segments) == edges
  {
    if segments != [] {
      var s := segments[|segments| - 1];
      assert SegmentResolved(map[], s);
      NoRoadExits(segments[..|segments| - 1], edges);
      NoLaneExits(s.id, s.lanes, edges);
    }
  }

  lemma {:induction false} NoZoneExits(zones: seq<Rndf.Zone>)
    requires forall z :: z in zones ==> ZoneResolved(map[], z)
    ensures ZoneExitEdges(map[], zones) == []
  {
    if zones != [] {
      var z := zones[|zones| - 1];
      assert ZoneResolved(map[], z);
      assert |z.perimeter.exits| > 0 ==> Known(map[], z.perimeter.exits[0]);
      NoZoneExits(zones[..|zones| - 1]);
    }
  }

  lemma NoVerticesNoEdges(f: Rndf.File)
    requires Vertices(f) == [] && Resolved(map[], f)
    ensures AllEdges(map[], f, []) == []
  {
    assert |RoadVertices(f.segments)| == 0;
    NoRoadEdges(f.segments);
    NoRoadExits(f.segments, []);
    NoZoneExits(f.zones);
  }

  /** The edges of a resolved file join positions of its node array. */
  lemma EdgesInRange(m: IdMap, f: Rndf.File, order: seq<ElementId>)
    requires SameNumbers(Indexed(Vertices(f)), m) && Enumerates(order, m) && Resolved(m, f) && Fits(m)
    ensures InRange(AllEdges(m, f, order), |m|)
  {
    if Vertices(f) == [] {
      assert m == map[];
      assert order == [];
      NoVerticesNoEdges(f);
    } else {
      IndexedNodes(Vertices(f));
      assert Vertices(f)[0].id in m.Keys;
      SizeIsKeys(m);
      AllEdgesInRange(m, |m|, f, order);
    }
  }

  // ---------------------------------------------------------------- flags

  function LaneExits(lanes: seq<Rndf.Lane>): seq<Rndf.Exit> {
    if lanes == [] then [] else LaneExits(lanes[..|lanes| - 1]) + lanes[|lanes| - 1].exits
  }

  function RoadExits(segments: seq<Rndf.Segment>): seq<Rndf.Exit> {
    if segments == [] then [] else RoadExits(segments[..|segments| - 1]) + LaneExits(segments[|segments| - 1].lanes)
  }

  function ZoneExits(zones: seq<Rndf.Zone>): seq<Rndf.Exit> {
    if zones == [] then [] else ZoneExits(zones[..|zones| - 1]) + zones[|zones| - 1].perimeter.exits
  }

  function StopIds(seg: int, lane: int, stops: seq<int>): (r: seq<ElementId>)
    ensures |r| == |stops|
  {
    seq(|stops|, i requires 0 <= i < |stops| => NewId(seg, lane, stops[i]))
  }

  function LaneStops(seg: int, lanes: seq<Rndf.Lane>): seq<ElementId> {
    if lanes == [] then []
    else LaneStops(seg, lanes[..|lanes| - 1]) + StopIds(seg, lanes[|lanes| - 1].id, lanes[|lanes| - 1].stops)
  }

  function RoadStops(segments: seq<Rndf.Segment>): seq<ElementId> {
    if segments == [] then []
    else RoadStops(segments[..|segments| - 1]) + LaneStops(segments[|segments| - 1].id, segments[|segments| - 1].lanes)
  }

  lemma ZoneExitsGrow(zones: seq<Rndf.Zone>, i: nat)
    requires i < |zones|
    ensures ZoneExits(zones[..i + 1]) == ZoneExits(zones[..i]) + zones[i].perimeter.exits
  {
    assert zones[..i + 1][..i] == zones[..i];
  }

  predicate StartsAt(exits: seq<Rndf.Exit>, id: ElementId) { exists e :: e in exits && StartId(e) == id }
  predicate EndsAt(exits: seq<Rndf.Exit>, id: ElementId) { exists e :: e in exits && EndId(e) == id }

  /** A way-point is an exit, an entry or a stop exactly when a line of the file says so. */
  ghost predicate Flagged(m: IdMap, exits: seq<Rndf.Exit>, stops: seq<ElementId>) {
    forall id :: id in m ==>
      && (m[id].isExit <==> StartsAt(exits, id))
      && (m[id].isEntry <==> EndsAt(exits, id))
      && (m[id].isStop <==> id in stops)
  }

  function Marked(m: IdMap, e: Rndf.Exit): IdMap
    requires Known(m, e)
  {
    var m1 := m[StartId(e) := m[StartId(e)].(isExit := true)];
    m1[EndId(e) := m1[EndId(e)].(isEntry := true)]
  }

  lemma MarkedFlags(m: IdMap, e: Rndf.Exit, exits: seq<Rndf.Exit>, stops: seq<ElementId>)
    requires Known(m, e) && Flagged(m, exits, stops)
    ensures SameNumbers(m, Marked(m, e)) && Flagged(Marked(m, e), exits + [e], stops)
  {
    forall id | id in m
      ensures StartsAt(exits + [e], id) <==> StartsAt(exits, id) || StartId(e) == id
      ensures EndsAt(exits + [e], id) <==> EndsAt(exits, id) || EndId(e) == id
    {
      assert e in exits + [e] && forall x :: x in exits ==> x in exits + [e];
    }
  }

  lemma StopFlags(m: IdMap, id: ElementId, exits: seq<Rndf.Exit>, stops: seq<ElementId>)
    requires id in m && Flagged(m, exits, stops)
    ensures var m' := m[id := m[id].(isStop := true)]; SameNumbers(m, m') && Flagged(m', exits, stops + [id])
  {
  }

  lemma SameNumbersChain(a: IdMap, b: IdMap, c: IdMap)
    requires SameNumbers(a, b) && SameNumbers(b, c)
    ensures SameNumbers(a, c)
  {
    assert forall id :: id in a <==> id in b;
  }

  lemma EnumeratesSame(order: seq<ElementId>, m: IdMap, m': IdMap)
    requires Enumerates(order, m) && SameNumbers(m, m')
    ensures Enumerates(order, m')
  {
    SameSize(m, m');
    assert forall id :: id in m <==> id in m';
  }

  lemma Regroup<T>(a: seq<T>, b: seq<T>, c: seq<T>)
    ensures a + b + c == a + (b + c)
  {
  }

  /** The way-points of a lane are in the map. */
  ghost predicate LanePresent(m: IdMap, seg: int, l: Rndf.Lane) {
    forall i: nat :: i < |l.waypoints| ==> PointId(seg, l, i) in m
  }

  ghost predicate AllPresent(m: IdMap, vs: seq<Vertex>) { forall i :: 0 <= i < |vs| ==> vs[i].id in m }

  lemma {:induction false} LanesPresent(m: IdMap, seg: int, lanes: seq<Rndf.Lane>)
    requires AllPresent(m, LaneVertices(seg, lanes))
    ensures forall l :: l in lanes ==> LanePresent(m, seg, l)
  {
    if lanes != [] {
      var n := |lanes| - 1;
      var a, b := LaneVertices(seg, lanes[..n]), VerticesOf(seg, lanes[n].id, lanes[n].waypoints, false, false);
      PresentParts(m, a, b);
      LanesPresent(m, seg, lanes[..n]);
      forall i: nat | i < |lanes[n].waypoints| ensures PointId(seg, lanes[n], i) in m {
        assert b[i].id == PointId(seg, lanes[n], i);
      }
      assert lanes == lanes[..n] + [lanes[n]];
    }
  }

  lemma PresentParts(m: IdMap, a: seq<Vertex>, b: seq<Vertex>)
    requires AllPresent(m, a + b)
    ensures AllPresent(m, a) && AllPresent(m, b)
  {
    forall i | 0 <= i < |a| ensures a[i].id in m { assert (a + b)[i] == a[i]; }
    forall i | 0 <= i < |b| ensures b[i].id in m { assert (a + b)[|a| + i] == b[i]; }
  }

  lemma {:induction false} RoadPresent(m: IdMap, segments: seq<Rndf.Segment>)
    requires AllPresent(m, RoadVertices(segments))
    ensures forall s :: s in segments ==> forall l :: l in s.lanes ==> LanePresent(m, s.id, l)
  {
    if segments != [] {
      var n := |segments| - 1;
      PresentParts(m, RoadVertices(segments[..n]), LaneVertices(segments[n].id, segments[n].lanes));
      RoadPresent(m, segments[..n]);
      LanesPresent(m, segments[n].id, segments[n].lanes);
      assert segments == segments[..n] + [segments[n]];
    }
  }

  // ---------------------------------------------------------------- the builder

  class Builder {
    var idMap: IdMap
    var edges: seq<Edge>
    var index: nat

    constructor ()
      ensures idMap == map[] && edges == [] && index == 0
    {
      idMap, edges, index := map[], [], 0;
    }

    method AddPoints(seg: int, lane: int, points: seq<Rndf.Waypoint>, isSpot: bool, isPerimeter: bool, ghost done: seq<Vertex>)
      requires Counted(done)
      modifies this`idMap, this`index
      ensures Counted(done + VerticesOf(seg, lane, points, isSpot, isPerimeter))
    {
      ghost var vs := VerticesOf(seg, lane, points, isSpot, isPerimeter);
      assert done + vs[..0] == done;
      for i := 0 to |points|
        invariant idMap == Indexed(done + vs[..i]) && index == |done| + i
      {
        var id := NewId(seg, lane, points[i].id);
        assert (done + vs[..i + 1])[..|done| + i] == done + vs[..i];
        idMap := idMap[id := NodeOf(Vertex(id, isSpot, isPerimeter), index)];
        index := index + 1;
      }
      assert vs[..|points|] == vs;
    }

    /** The map and the counter have taken in exactly these vertices. */
    ghost predicate Counted(vs: seq<Vertex>) reads this { idMap == Indexed(vs) && index == |vs| }

    method NumberLanes(seg: int, lanes: seq<Rndf.Lane>, ghost done: seq<Vertex>)
      requires Counted(done)
      modifies this`idMap, this`index
      ensures Counted(done + LaneVertices(seg, lanes))
    {
      assert done + LaneVertices(seg, lanes[..0]) == done;
      for j := 0 to |lanes|
        invariant Counted(done + LaneVertices(seg, lanes[..j]))
      {
        var l := lanes[j];
        assert lanes[..j + 1][..j] == lanes[..j];
        AddPoints(seg, l.id, l.waypoints, false, false, done + LaneVertices(seg, lanes[..j]));
        Regroup(done, LaneVertices(seg, lanes[..j]), VerticesOf(seg, l.id, l.waypoints, false, false));
      }
      assert lanes[..|lanes|] == lanes;
    }

    method NumberRoad(segments: seq<Rndf.Segment>)
      requires Counted([])
      modifies this`idMap, this`index
      ensures Counted(RoadVertices(segments))
    {
      for i := 0 to |segments|
        invariant Counted(RoadVertices(segments[..i]))
      {
        assert segments[..i + 1][..i] == segments[..i];
        NumberLanes(segments[i].id, segments[i].lanes, RoadVertices(segments[..i]));
      }
      assert segments[..|segments|] == segments;
    }

    method NumberSpots(zone: int, spots: seq<Rndf.Spot>, ghost done: seq<Vertex>)
      requires Counted(done)
      modifies this`idMap, this`index
      ensures Counted(done + SpotVertices(zone, spots))
    {
      assert done + SpotVertices(zone, spots[..0]) == done;
      for j := 0 to |spots|
        invariant Counted(done + SpotVertices(zone, spots[..j]))
      {
        var s := spots[j];
        assert spots[..j + 1][..j] == spots[..j];
        AddPoints(zone, s.id, s.waypoints, true, false, done + SpotVertices(zone, spots[..j]));
        Regroup(done, SpotVertices(zone, spots[..j]), VerticesOf(zone, s.id, s.waypoints, true, false));
      }
      assert spots[..|spots|] == spots;
    }

    method NumberParking(zones: seq<Rndf.Zone>, ghost done: seq<Vertex>)
      requires Counted(done)
      modifies this`idMap, this`index
      ensures Counted(done + ParkingVertices(zones))
    {
      assert done + ParkingVertices(zones[..0]) == done;
      for i := 0 to |zones|
        invariant Counted(done + ParkingVertices(zones[..i]))
      {
        assert zones[..i + 1][..i] == zones[..i];
        NumberSpots(zones[i].id, zones[i].spots, done + ParkingVertices(zones[..i]));
        Regroup(done, ParkingVertices(zones[..i]), SpotVertices(zones[i].id, zones[i].spots));
      }
      assert zones[..|zones|] == zones;
    }

    method NumberPerimeters(zones: seq<Rndf.Zone>, ghost done: seq<Vertex>)
      requires Counted(done)
      modifies this`idMap, this`index
      ensures Counted(done + PerimeterVertices(zones))
    {
      assert done + PerimeterVertices(zones[..0]) == done;
      for i := 0 to |zones|
        invariant Counted(done + PerimeterVertices(zones[..i]))
      {
        var p := zones[i].perimeter;
        assert zones[..i + 1][..i] == zones[..i];
        AddPoints(zones[i].id, p.id, p.points, false, true, done + PerimeterVertices(zones[..i]));
        Regroup(done, PerimeterVertices(zones[..i]), VerticesOf(zones[i].id, p.id, p.points, false, true));
      }
      assert zones[..|zones|] == zones;
    }

    /** Number all way-points: lanes, then spots, then perimeters. */
    method NumberVertices(f: Rndf.File)
      requires idMap == map[] && index == 0
      modifies this`idMap, this`index
      ensures idMap == Indexed(Vertices(f)) && index == |Vertices(f)|
    {
      NumberRoad(f.segments);
      NumberParking(f.zones, RoadVertices(f.segments));
      NumberPerimeters(f.zones, RoadVertices(f.segments) + ParkingVertices(f.zones));
    }

    /** Set the flags of the two ends of an exit, if both exist. */
    method MarkExit(e: Rndf.Exit) returns (known: bool)
      modifies this`idMap
      ensures known == Known(old(idMap), e)
      ensures idMap == if known then Marked(old(idMap), e) else old(idMap)
    {
      var from, into := StartId(e), EndId(e);
      if from !in idMap || into !in idMap { return false; }
      idMap := idMap[from := idMap[from].(isExit := true)];
      idMap := idMap[into := idMap[into].(isEntry := true)];
      known := true;
    }

    /** Set the flags of the ends of exits; gives up at the first unknown way-point. */
    method MarkExits(exits: seq<Rndf.Exit>, ghost before: seq<Rndf.Exit>, ghost stops: seq<ElementId>) returns (ok: bool)
      requires Flagged(idMap, before, stops)
      modifies this`idMap
      ensures SameNumbers(old(idMap), idMap)
      ensures ok <==> AllKnown(old(idMap), exits)
      ensures ok ==> Flagged(idMap, before + exits, stops)
    {
      for i := 0 to |exits|
        invariant SameNumbers(old(idMap), idMap) && Flagged(idMap, before + exits[..i], stops)
        invariant forall j :: 0 <= j < i ==> Known(old(idMap), exits[j])
      {
        var e := exits[i];
        ghost var m := idMap;
        KnownSame(old(idMap), m, e);
        var known := MarkExit(e);
        if !known {
          assert e in exits && !Known(old(idMap), e);
          return false;
        }
        MarkedFlags(m, e, before + exits[..i], stops);
        SameNumbersChain(old(idMap), m, idMap);
        assert before + exits[..i + 1] == before + exits[..i] + [e];
      }
      assert exits[..|exits|] == exits;
      ok := true;
    }

    method MarkStops(seg: int, lane: int, points: seq<int>, ghost exits: seq<Rndf.Exit>, ghost stops: seq<ElementId>)
      returns (ok: bool)
      requires Flagged(idMap, exits, stops)
      modifies this`idMap
      ensures SameNumbers(old(idMap), idMap)
      ensures ok <==> forall p :: p in points ==> NewId(seg, lane, p) in old(idMap)
      ensures ok ==> Flagged(idMap, exits, stops + StopIds(seg, lane, points))
    {
      ghost var ids := StopIds(seg, lane, points);
      for i := 0 to |points|
        invariant SameNumbers(old(idMap), idMap) && Flagged(idMap, exits, stops + ids[..i])
        invariant forall j :: 0 <= j < i ==> NewId(seg, lane, points[j]) in old(idMap)
      {
        var id := NewId(seg, lane, points[i]);
        assert forall x :: x in old(idMap) <==> x in idMap;
        if id !in idMap { return false; }
        ghost var m := idMap;
        StopFlags(m, id, exits, stops + ids[..i]);
        idMap := idMap[id := idMap[id].(isStop := true)];
        SameNumbersChain(old(idMap), m, idMap);
        assert stops + ids[..i + 1] == stops + ids[..i] + [id];
      }
      assert ids[..|points|] == ids;
      ok := true;
    }

    method CheckCheckpoints(seg: int, l: Rndf.Lane) returns (ok: bool)
      ensures ok <==> forall c :: c in l.checkpoints ==> NewId(seg, l.id, c.waypoint) in idMap
    {
      for i := 0 to |l.checkpoints|
        invariant forall j :: 0 <= j < i ==> NewId(seg, l.id, l.checkpoints[j].waypoint) in idMap
      {
        if NewId(seg, l.id, l.checkpoints[i].waypoint) !in idMap { return false; }
      }
      ok := true;
    }

    method MarkLane(seg: int, l: Rndf.Lane, ghost exits: seq<Rndf.Exit>, ghost stops: seq<ElementId>) returns (ok: bool)
      requires Flagged(idMap, exits, stops)
      modifies this`idMap
      ensures SameNumbers(old(idMap), idMap)
      ensures ok <==> LaneResolved(old(idMap), seg, l)
      ensures ok ==> Flagged(idMap, exits + l.exits, stops + StopIds(seg, l.id, l.stops))
    {
      ok := CheckCheckpoints(seg, l);
      if !ok { return; }
      ok := MarkStops(seg, l.id, l.stops, exits, stops);
      if !ok { return; }
      ghost var m := idMap;
      assert forall id :: id in old(idMap) <==> id in m;
      ok := MarkExits(l.exits, exits, stops + StopIds(seg, l.id, l.stops));
      SameNumbersChain(old(idMap), m, idMap);
    }

    method MarkZones(zones: seq<Rndf.Zone>) returns (ok: bool)
      requires Flagged(idMap, [], [])
      modifies this`idMap
      ensures SameNumbers(old(idMap), idMap)
      ensures ok <==> forall z :: z in zones ==> ZoneResolved(old(idMap), z)
      ensures ok ==> Flagged(idMap, ZoneExits(zones), [])
    {
      for i := 0 to |zones|
        invariant SameNumbers(old(idMap), idMap) && Flagged(idMap, ZoneExits(zones[..i]), [])
        invariant forall j :: 0 <= j < i ==> ZoneResolved(old(idMap), zones[j])
      {
        ghost var m := idMap;
        ZoneResolvedSame(old(idMap), m, zones[i]);
        ZoneExitsGrow(zones, i);
        ok := MarkExits(zones[i].perimeter.exits, ZoneExits(zones[..i]), []);
        SameNumbersChain(old(idMap), m, idMap);
        if !ok {
          assert zones[i] in zones;
          return;
        }
      }
      assert zones[..|zones|] == zones;
      ok := true;
    }

    method MarkLanes(seg: int, lanes: seq<Rndf.Lane>, ghost exits: seq<Rndf.Exit>, ghost stops: seq<ElementId>)
      returns (ok: bool)
      requires Flagged(idMap, exits, stops)
      modifies this`idMap
      ensures SameNumbers(old(idMap), idMap)
      ensures ok <==> forall l :: l in lanes ==> LaneResolved(old(idMap), seg, l)
      ensures ok ==> Flagged(idMap, exits + LaneExits(lanes), stops + LaneStops(seg, lanes))
    {
      assert exits + LaneExits(lanes[..0]) == exits && stops + LaneStops(seg, lanes[..0]) == stops;
      for i := 0 to |lanes|
        invariant SameNumbers(old(idMap), idMap)
        invariant Flagged(idMap, exits + LaneExits(lanes[..i]), stops + LaneStops(seg, lanes[..i]))
        invariant forall j :: 0 <= j < i ==> LaneResolved(old(idMap), seg, lanes[j])
      {
        ghost var m, e, s := idMap, exits + LaneExits(lanes[..i]), stops + LaneStops(seg, lanes[..i]);
        assert lanes[..i + 1][..i] == lanes[..i];
        ResolvedSame(old(idMap), m, seg, lanes[i]);
        ok := MarkLane(seg, lanes[i], e, s);
        SameNumbersChain(old(idMap), m, idMap);
        if !ok {
          assert lanes[i] in lanes && !LaneResolved(old(idMap), seg, lanes[i]);
          return;
        }
        Regroup(exits, LaneExits(lanes[..i]), lanes[i].exits);
        Regroup(stops, LaneStops(seg, lanes[..i]), StopIds(seg, lanes[i].id, lanes[i].stops));
      }
      assert lanes[..|lanes|] == lanes;
      ok := true;
    }

    method MarkRoad(segments: seq<Rndf.Segment>, ghost exits: seq<Rndf.Exit>) returns (ok: bool)
      requires Flagged(idMap, exits, [])
      modifies this`idMap
      ensures SameNumbers(old(idMap), idMap)
      ensures ok <==> forall s :: s in segments ==> SegmentResolved(old(idMap), s)
      ensures ok ==> Flagged(idMap, exits + RoadExits(segments), RoadStops(segments))
    {
      assert exits + RoadExits(segments[..0]) == exits;
      for i := 0 to |segments|
        invariant SameNumbers(old(idMap), idMap)
        invariant Flagged(idMap, exits + RoadExits(segments[..i]), RoadStops(segments[..i]))
        invariant forall j :: 0 <= j < i ==> SegmentResolved(old(idMap), segments[j])
      {
        ghost var m, e := idMap, exits + RoadExits(segments[..i]);
        var s := segments[i];
        assert segments[..i + 1][..i] == segments[..i];
        forall l | l in s.lanes ensures LaneResolved(m, s.id, l) <==> LaneResolved(old(idMap), s.id, l) {
          ResolvedSame(old(idMap), m, s.id, l);
        }
        ok := MarkLanes(s.id, s.lanes, e, RoadStops(segments[..i]));
        SameNumbersChain(old(idMap), m, idMap);
        if !ok {
          assert s in segments && !SegmentResolved(old(idMap), s);
          return;
        }
        Regroup(exits, RoadExits(segments[..i]), LaneExits(s.lanes));
      }
      assert segments[..|segments|] == segments;
      ok := true;
    }

    /** Set all flags; fails exactly when a reference does not resolve. */
    method MarkReferences(f: Rndf.File) returns (ok: bool)
      requires idMap == Indexed(Vertices(f))
      modifies this`idMap
      ensures SameNumbers(old(idMap), idMap)
      ensures ok <==> Resolved(old(idMap), f)
      ensures ok ==> Flagged(idMap, ZoneExits(f.zones) + RoadExits(f.segments), RoadStops(f.segments))
    {
      FreshFlags(Vertices(f));
      ok := MarkZones(f.zones);
      if !ok { return; }
      ghost var m := idMap;
      forall s | s in f.segments ensures SegmentResolved(m, s) <==> SegmentResolved(old(idMap), s) {
        forall l | l in s.lanes ensures LaneResolved(m, s.id, l) <==> LaneResolved(old(idMap), s.id, l) {
          ResolvedSame(old(idMap), m, s.id, l);
        }
      }
      ok := MarkRoad(f.segments, ZoneExits(f.zones));
      SameNumbersChain(old(idMap), m, idMap);
    }

    method AddLaneEdges(seg: int, l: Rndf.Lane)
      requires LanePresent(idMap, seg, l)
      modifies this`edges
      ensures edges == old(edges) + LaneEdges(idMap, seg, l)
    {
      ghost var added := LaneEdges(idMap, seg, l);
      var i: nat := 0;
      while i + 1 < |l.waypoints|
        invariant i <= |added| && edges == old(edges) + added[..i]
      {
        var a, b := PointId(seg, l, i), PointId(seg, l, i + 1);
        var e := EdgeBetween(idMap[a], idMap[b], false);
        assert e == added[i];
        edges := edges + [e];
        i := i + 1;
      }
      assert added[..i] == added;
    }

    /** Mark the first edge between two indices. */
    method MarkEdge(start: int, end: int)
      modifies this`edges
      ensures edges == MarkFirst(old(edges), start, end)
    {
      for i := 0 to |edges|
        invariant edges == old(edges)
        invariant forall j :: 0 <= j < i ==> !(edges[j].start == start && edges[j].end == end)
      {
        if edges[i].start == start && edges[i].end == end {
          MarkFirstAt(edges, start, end, i);
          edges := edges[i := edges[i].(isExit := true)];
          return;
        }
      }
      MarkFirstAt(edges, start, end, |edges|);
    }

    method AddLanes(seg: int, lanes: seq<Rndf.Lane>)
      requires forall l :: l in lanes ==> LanePresent(idMap, seg, l)
      modifies this`edges
      ensures edges == old(edges) + LanesEdges(idMap, seg, lanes)
    {
      assert old(edges) + LanesEdges(idMap, seg, lanes[..0]) == old(edges);
      for i := 0 to |lanes|
        invariant edges == old(edges) + LanesEdges(idMap, seg, lanes[..i])
      {
        assert lanes[i] in lanes && lanes[..i + 1][..i] == lanes[..i];
        Regroup(old(edges), LanesEdges(idMap, seg, lanes[..i]), LaneEdges(idMap, seg, lanes[i]));
        AddLaneEdges(seg, lanes[i]);
      }
      assert lanes[..|lanes|] == lanes;
    }

    method AddRoad(segments: seq<Rndf.Segment>)
      requires forall s :: s in segments ==> forall l :: l in s.lanes ==> LanePresent(idMap, s.id, l)
      modifies this`edges
      ensures edges == old(edges) + RoadEdges(idMap, segments)
    {
      assert old(edges) + RoadEdges(idMap, segments[..0]) == old(edges);
      for i := 0 to |segments|
        invariant edges == old(edges) + RoadEdges(idMap, segments[..i])
      {
        var s := segments[i];
        assert s in segments && segments[..i + 1][..i] == segments[..i];
        Regroup(old(edges), RoadEdges(idMap, segments[..i]), LanesEdges(idMap, s.id, s.lanes));
        AddLanes(s.id, s.lanes);
      }
      assert segments[..|segments|] == segments;
    }

    method AddLaneExits(seg: int, lanes: seq<Rndf.Lane>)
      requires forall l :: l in lanes ==> LaneResolved(idMap, seg, l)
      modifies this`edges
      ensures edges == WithLaneExits(idMap, old(edges), lanes)
    {
      for i := 0 to |lanes|
        invariant edges == WithLaneExits(idMap, old(edges), lanes[..i])
      {
        assert lanes[i] in lanes && lanes[..i + 1][..i] == lanes[..i];
        AddExits(lanes[i].exits);
      }
      assert lanes[..|lanes|] == lanes;
    }

    method AddRoadExits(segments: seq<Rndf.Segment>)
      requires forall s :: s in segments ==> SegmentResolved(idMap, s)
      modifies this`edges
      ensures edges == WithRoadExits(idMap, old(edges), segments)
    {
      for i := 0 to |segments|
        invariant edges == WithRoadExits(idMap, old(edges), segments[..i])
      {
        assert segments[i] in segments && segments[..i + 1][..i] == segments[..i];
        AddLaneExits(segments[i].id, segments[i].lanes);
      }
      assert segments[..|segments|] == segments;
    }

    method AddAllZoneExits(zones: seq<Rndf.Zone>)
      requires forall z :: z in zones ==> ZoneResolved(idMap, z)
      modifies this`edges
      ensures edges == old(edges) + ZoneExitEdges(idMap, zones)
    {
      assert old(edges) + ZoneExitEdges(idMap, zones[..0]) == old(edges);
      for i := 0 to |zones|
        invariant edges == old(edges) + ZoneExitEdges(idMap, zones[..i])
      {
        assert zones[i] in zones && zones[..i + 1][..i] == zones[..i];
        Regroup(old(edges), ZoneExitEdges(idMap, zones[..i]), ExitEdges(idMap, zones[i].perimeter.exits));
        AddZoneExits(zones[i].perimeter.exits);
      }
      assert zones[..|zones|] == zones;
    }

    method AddExits(exits: seq<Rndf.Exit>)
      requires AllKnown(idMap, exits)
      modifies this`edges
      ensures edges == WithExits(idMap, old(edges), exits)
    {
      for i := 0 to |exits|
        invariant edges == WithExits(idMap, old(edges), exits[..i])
      {
        var e := exits[i];
        assert e in exits && exits[..i + 1][..i] == exits[..i];
        if IsNext(StartId(e), EndId(e)) {
          MarkEdge(idMap[StartId(e)].index, idMap[EndId(e)].index);
        } else {
          edges := edges + [EdgeBetween(idMap[StartId(e)], idMap[EndId(e)], true)];
        }
      }
      assert exits[..|exits|] == exits;
    }

    method AddZoneExits(exits: seq<Rndf.Exit>)
      requires AllKnown(idMap, exits)
      modifies this`edges
      ensures edges == old(edges) + ExitEdges(idMap, exits)
    {
      ghost var added := ExitEdges(idMap, exits);
      for i := 0 to |exits|
        invariant edges == old(edges) + added[..i]
      {
        var e := exits[i];
        assert e in exits;
        edges := edges + [EdgeBetween(idMap[StartId(e)], idMap[EndId(e)], true)];
      }
      assert added[..|exits|] == added;
    }

    method AddLinksFrom(pass: Pass, a: Node, order: seq<ElementId>)
      requires forall id :: id in order ==> id in idMap
      modifies this`edges
      ensures edges == old(edges) + LinksFrom(pass, idMap, a, order)
    {
      assert old(edges) + LinksFrom(pass, idMap, a, order[..0]) == old(edges);
      for j := 0 to |order|
        invariant edges == old(edges) + LinksFrom(pass, idMap, a, order[..j])
      {
        assert order[j] in order && order[..j + 1][..j] == order[..j];
        Regroup(old(edges), LinksFrom(pass, idMap, a, order[..j]), Links(pass, a, idMap[order[j]]));
        edges := edges + Links(pass, a, idMap[order[j]]);
      }
      assert order[..|order|] == order;
    }

    /** One pass over all ordered pairs of nodes. */
    method AddLinks(pass: Pass, order: seq<ElementId>)
      requires forall id :: id in order ==> id in idMap
      modifies this`edges
      ensures edges == old(edges) + AllLinks(pass, idMap, order, order)
    {
      assert old(edges) + AllLinks(pass, idMap, order[..0], order) == old(edges);
      for i := 0 to |order|
        invariant edges == old(edges) + AllLinks(pass, idMap, order[..i], order)
      {
        assert order[i] in order && order[..i + 1][..i] == order[..i];
        Regroup(old(edges), AllLinks(pass, idMap, order[..i], order), LinksFrom(pass, idMap, idMap[order[i]], order));
        AddLinksFrom(pass, idMap[order[i]], order);
      }
      assert order[..|order|] == order;
    }

    /** The edges of the lanes, then those of their exits, then those of the zones. */
    method AddEdges(f: Rndf.File, order: seq<ElementId>)
      requires edges == [] && Resolved(idMap, f) && Enumerates(order, idMap)
      requires AllPresent(idMap, Vertices(f))
      modifies this`edges
      ensures edges == AllEdges(idMap, f, order)
    {
      PresentParts(idMap, RoadVertices(f.segments) + ParkingVertices(f.zones), PerimeterVertices(f.zones));
      PresentParts(idMap, RoadVertices(f.segments), ParkingVertices(f.zones));
      RoadPresent(idMap, f.segments);
      AddRoad(f.segments);
      assert edges == RoadEdges(idMap, f.segments);
      AddRoadExits(f.segments);
      AddAllZoneExits(f.zones);
      AddLinks(Across, order);
      AddLinks(ToSpots, order);
      AddLinks(BetweenSpots, order);
    }

    /**
     * Prepare the graph of a file, visiting the map in a given order. Fails exactly when a
     * checkpoint, stop or exit names a way-point that does not exist.
     */
    method PrepGraph(f: Rndf.File, order: seq<ElementId>) returns (ok: bool)
      requires idMap == map[] && index == 0 && edges == []
      requires Enumerates(order, Indexed(Vertices(f)))
      modifies this
      ensures SameNumbers(Indexed(Vertices(f)), idMap) && Enumerates(order, idMap)
      ensures ok <==> Resolved(Indexed(Vertices(f)), f)
      ensures ok ==> Resolved(idMap, f) && edges == AllEdges(idMap, f, order)
      ensures ok ==> Flagged(idMap, ZoneExits(f.zones) + RoadExits(f.segments), RoadStops(f.segments))
    {
      NumberVertices(f);
      ghost var m := idMap;
      ok := MarkReferences(f);
      EnumeratesSame(order, m, idMap);
      if !ok { return; }
      ResolvedSameFile(m, idMap, f);
      IndexedNodes(Vertices(f));
      assert forall id :: id in m <==> id in idMap;
      AddEdges(f, order);
    }
  }

  lemma ResolvedSameFile(m: IdMap, m': IdMap, f: Rndf.File)
    requires m.Keys == m'.Keys
    ensures Resolved(m, f) <==> Resolved(m', f)
  {
    assert forall id :: id in m <==> id in m';
    assert forall s :: s in f.segments ==> (SegmentResolved(m, s) <==> SegmentResolved(m', s)) by {
      forall s, l | s in f.segments && l in s.lanes
        ensures LaneResolved(m, s.id, l) <==> LaneResolved(m', s.id, l)
      {
        ResolvedSame(m, m', s.id, l);
      }
    }
  }

  /**
   * The graph of a file. With at most 65536 way-points it can be built exactly when all references
   * resolve and no identifier is repeated; it is then well formed, with unique identifiers.
   */
  method BuildGraph(f: Rndf.File, order: seq<ElementId>) returns (ok: bool, graph: Graph)
    requires Enumerates(order, Indexed(Vertices(f))) && |Vertices(f)| <= INDEX_LIMIT
    ensures fresh(graph) && graph.Valid()
    ensures ok <==> Resolved(Indexed(Vertices(f)), f) && Distinct(Vertices(f))
    ensures ok ==> HoldsVertices(graph.nodes, Vertices(f)) && UniqueIds(graph.nodes)
    ensures ok ==> WellFormed(graph.Snapshot())
  {
    var b := new Builder();
    var nodes: seq<Node>;
    ok := b.PrepGraph(f, order);
    if ok {
      SameSize(Indexed(Vertices(f)), b.idMap);
      FitsIffDistinct(Vertices(f));
      ok, nodes := PopulateNodes(Vertices(f), b.idMap, order);
    }
    if !ok {
      graph := new Graph([], []);
      return;
    }
    HeldIsPlaced(nodes, Vertices(f));
    SizeOfDistinct(Vertices(f));
    EdgesInRange(b.idMap, f, order);
    graph := new Graph(nodes, b.edges);
  }

  lemma {:induction false} MarkFirstAt(edges: seq<Edge>, start: int, end: int, i: nat)
    requires i <= |edges| && forall j :: 0 <= j < i ==> !(edges[j].start == start && edges[j].end == end)
    requires i < |edges| ==> edges[i].start == start && edges[i].end == end
    ensures MarkFirst(edges, start, end) == if i < |edges| then edges[i := edges[i].(isExit := true)] else edges
  {
    if i > 0 { MarkFirstAt(edges[1..], start, end, i - 1); }
  }

  lemma FreshFlags(vs: seq<Vertex>)
    ensures Flagged(Indexed(vs), [], [])
  {
    IndexedNodes(vs);
    forall id | id in Indexed(vs) ensures !Indexed(vs)[id].isExit && !Indexed(vs)[id].isEntry && !Indexed(vs)[id].isStop {
      assert Numbered(vs, Indexed(vs)[id], id);
    }
  }
}
