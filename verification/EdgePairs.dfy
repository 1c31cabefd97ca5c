/** Which way-points the edges of a built graph join. */
module EdgePairs {
  import opened WayPoints
  import opened RndfGraph
  import opened GraphBuilding
  import Rndf
  import Blockage

  type Pair = (ElementId, ElementId)

  // ---------------------------------------------------------------- the pairs, in the order of the edges

  /** Successive way-points of a lane. */
  function LanePairs(seg: int, l: Rndf.Lane): (r: seq<Pair>)
    ensures |r| == if l.waypoints == [] then 0 else |l.waypoints| - 1
  {
    var n := if l.waypoints == [] then 0 else |l.waypoints| - 1;
    seq(n, i requires 0 <= i < n => (PointId(seg, l, i), PointId(seg, l, i + 1)))
  }

  function LanesPairs(seg: int, lanes: seq<Rndf.Lane>): seq<Pair> {
    if lanes == [] then [] else LanesPairs(seg, lanes[..|lanes| - 1]) + LanePairs(seg, lanes[|lanes| - 1])
  }

  function RoadPairs(segments: seq<Rndf.Segment>): seq<Pair> {
    if segments == [] then []
    else
      var s := segments[|segments| - 1];
      RoadPairs(segments[..|segments| - 1]) + LanesPairs(s.id, s.lanes)
  }

  /** An exit to the next way-point of its lane makes no edge of its own. */
  function ExitPairs(exits: seq<Rndf.Exit>): seq<Pair> {
    if exits == [] then []
    else
      var e := exits[|exits| - 1];
      ExitPairs(exits[..|exits| - 1]) + if IsNext(StartId(e), EndId(e)) then [] else [(StartId(e), EndId(e))]
  }

  function LaneExitPairs(lanes: seq<Rndf.Lane>): seq<Pair> {
    if lanes == [] then [] else LaneExitPairs(lanes[..|lanes| - 1]) + ExitPairs(lanes[|lanes| - 1].exits)
  }

  function RoadExitPairs(segments: seq<Rndf.Segment>): seq<Pair> {
    if segments == [] then []
    else RoadExitPairs(segments[..|segments| - 1]) + LaneExitPairs(segments[|segments| - 1].lanes)
  }

  function AllExitPairs(exits: seq<Rndf.Exit>): (r: seq<Pair>)
    ensures |r| == |exits|
  {
    seq(|exits|, i requires 0 <= i < |exits| => (StartId(exits[i]), EndId(exits[i])))
  }

  function ZoneExitPairs(zones: seq<Rndf.Zone>): seq<Pair> {
    if zones == [] then []
    else ZoneExitPairs(zones[..|zones| - 1]) + AllExitPairs(zones[|zones| - 1].perimeter.exits)
  }

  /** The pairs that a pass joins for one ordered pair of nodes. */
  function LinkPairs(pass: Pass, a: Node, b: Node): seq<Pair> {
    if a.id == b.id || a.id.seg != b.id.seg then []
    else
      match pass
      case Across =>
        if a.isEntry && a.isPerimeter && b.isPerimeter && b.isExit && a.id.pt != b.id.pt then [(a.id, b.id)] else []
      case ToSpots =>
        if !b.isSpot || b.id.pt != 1 then []
        else (if a.isExit then [(b.id, a.id)] else []) + (if a.isEntry then [(a.id, b.id)] else [])
      case BetweenSpots =>
        if !a.isSpot || !b.isSpot || a.id.pt != 1 || b.id.pt != (if a.id.lane == b.id.lane then 2 else 1) then []
        else [(a.id, b.id), (b.id, a.id)]
  }

  function LinkPairsFrom(pass: Pass, m: IdMap, a: Node, order: seq<ElementId>): seq<Pair> {
    if order == [] then []
    else LinkPairsFrom(pass, m, a, order[..|order| - 1]) + LinkPairs(pass, a, At(m, order[|order| - 1]))
  }

  function AllLinkPairs(pass: Pass, m: IdMap, from: seq<ElementId>, order: seq<ElementId>): seq<Pair> {
    if from == [] then []
    else AllLinkPairs(pass, m, from[..|from| - 1], order) + LinkPairsFrom(pass, m, At(m, from[|from| - 1]), order)
  }

  function AllPairs(m: IdMap, f: Rndf.File, order: seq<ElementId>): seq<Pair> {
    RoadPairs(f.segments) + RoadExitPairs(f.segments) + ZoneExitPairs(f.zones)
    + AllLinkPairs(Across, m, order, order) + AllLinkPairs(ToSpots, m, order, order) + AllLinkPairs(BetweenSpots, m, order, order)
  }

  // ---------------------------------------------------------------- the ends of the edges are these pairs

  /** The edges join the nodes of the pairs, one by one, and none is blocked. */
  ghost predicate Matches(m: IdMap, edges: seq<Edge>, pairs: seq<Pair>) {
    && |edges| == |pairs|
    && (forall i :: 0 <= i < |edges| ==> Blockage.EndsOf(edges[i]) == (At(m, pairs[i].0).index, At(m, pairs[i].1).index))
    && (forall i :: 0 <= i < |edges| ==> !edges[i].blocked)
  }

  lemma MatchesAppend(m: IdMap, a: seq<Edge>, p: seq<Pair>, b: seq<Edge>, q: seq<Pair>)
    requires Matches(m, a, p) && Matches(m, b, q)
    ensures Matches(m, a + b, p + q)
  {}

  lemma {:induction false} LanesMatch(m: IdMap, seg: int, lanes: seq<Rndf.Lane>)
    ensures Matches(m, LanesEdges(m, seg, lanes), LanesPairs(seg, lanes))
  {
    if lanes != [] {
      var n := |lanes| - 1;
      LanesMatch(m, seg, lanes[..n]);
      MatchesAppend(m, LanesEdges(m, seg, lanes[..n]), LanesPairs(seg, lanes[..n]),
                    LaneEdges(m, seg, lanes[n]), LanePairs(seg, lanes[n]));
    }
  }

  lemma {:induction false} RoadMatches(m: IdMap, segments: seq<Rndf.Segment>)
    ensures Matches(m, RoadEdges(m, segments), RoadPairs(segments))
  {
    if segments != [] {
      var n := |segments| - 1;
      var s := segments[n];
      RoadMatches(m, segments[..n]);
      LanesMatch(m, s.id, s.lanes);
      MatchesAppend(m, RoadEdges(m, segments[..n]), RoadPairs(segments[..n]), LanesEdges(m, s.id, s.lanes), LanesPairs(s.id, s.lanes));
    }
  }

  lemma {:induction false} MarkKeepsEnds(edges: seq<Edge>, start: int, end: int)
    ensures forall i :: 0 <= i < |edges| ==>
      var e := MarkFirst(edges, start, end)[i]; Blockage.EndsOf(e) == Blockage.EndsOf(edges[i]) && e.blocked == edges[i].blocked
  {
    if edges != [] { MarkKeepsEnds(edges[1..], start, end); }
  }

  lemma {:induction false} ExitsMatch(m: IdMap, edges: seq<Edge>, pairs: seq<Pair>, exits: seq<Rndf.Exit>)
    requires Matches(m, edges, pairs)
    ensures Matches(m, WithExits(m, edges, exits), pairs + ExitPairs(exits))
  {
    if exits == [] {
      assert pairs + [] == pairs;
    } else {
      var n := |exits| - 1;
      var e := exits[n];
      var before, p := WithExits(m, edges, exits[..n]), pairs + ExitPairs(exits[..n]);
      ExitsMatch(m, edges, pairs, exits[..n]);
      if IsNext(StartId(e), EndId(e)) {
        MarkKeepsEnds(before, At(m, StartId(e)).index, At(m, EndId(e)).index);
        assert ExitPairs(exits) == ExitPairs(exits[..n]);
      } else {
        MatchesAppend(m, before, p, [EdgeBetween(At(m, StartId(e)), At(m, EndId(e)), true)], [(StartId(e), EndId(e))]);
        Regroup(pairs, ExitPairs(exits[..n]), [(StartId(e), EndId(e))]);
      }
    }
  }

  lemma {:induction false} LaneExitsMatch(m: IdMap, edges: seq<Edge>, pairs: seq<Pair>, lanes: seq<Rndf.Lane>)
    requires Matches(m, edges, pairs)
    ensures Matches(m, WithLaneExits(m, edges, lanes), pairs + LaneExitPairs(lanes))
  {
    if lanes == [] {
      assert pairs + [] == pairs;
    } else {
      var n := |lanes| - 1;
      LaneExitsMatch(m, edges, pairs, lanes[..n]);
      ExitsMatch(m, WithLaneExits(m, edges, lanes[..n]), pairs + LaneExitPairs(lanes[..n]), lanes[n].exits);
      Regroup(pairs, LaneExitPairs(lanes[..n]), ExitPairs(lanes[n].exits));
    }
  }

  lemma {:induction false} RoadExitsMatch(m: IdMap, edges: seq<Edge>, pairs: seq<Pair>, segments: seq<Rndf.Segment>)
    requires Matches(m, edges, pairs)
    ensures Matches(m, WithRoadExits(m, edges, segments), pairs + RoadExitPairs(segments))
  {
    if segments == [] {
      assert pairs + [] == pairs;
    } else {
      var n := |segments| - 1;
      RoadExitsMatch(m, edges, pairs, segments[..n]);
      LaneExitsMatch(m, WithRoadExits(m, edges, segments[..n]), pairs + RoadExitPairs(segments[..n]), segments[n].lanes);
      Regroup(pairs, RoadExitPairs(segments[..n]), LaneExitPairs(segments[n].lanes));
    }
  }

  lemma {:induction false} ZoneExitsMatch(m: IdMap, zones: seq<Rndf.Zone>)
    ensures Matches(m, ZoneExitEdges(m, zones), ZoneExitPairs(zones))
  {
    if zones != [] {
      var n := |zones| - 1;
      var exits := zones[n].perimeter.exits;
      ZoneExitsMatch(m, zones[..n]);
      MatchesAppend(m, ZoneExitEdges(m, zones[..n]), ZoneExitPairs(zones[..n]), ExitEdges(m, exits), AllExitPairs(exits));
    }
  }

  /** Every node of the map carries the identifier it is filed under. */
  ghost predicate Coherent(m: IdMap) { forall id :: id in m ==> m[id].id == id }

  lemma LinksMatch(pass: Pass, m: IdMap, x: ElementId, y: ElementId)
    requires Coherent(m) && x in m && y in m
    ensures Matches(m, Links(pass, m[x], m[y]), LinkPairs(pass, m[x], m[y]))
  {
    assert m[x].id == x && m[y].id == y;
  }

  lemma {:induction false} LinksFromMatch(pass: Pass, m: IdMap, x: ElementId, order: seq<ElementId>)
    requires Coherent(m) && x in m && forall id :: id in order ==> id in m
    ensures Matches(m, LinksFrom(pass, m, m[x], order), LinkPairsFrom(pass, m, m[x], order))
  {
    if order != [] {
      var n := |order| - 1;
      LinksFromMatch(pass, m, x, order[..n]);
      assert order[n] in order;
      LinksMatch(pass, m, x, order[n]);
      MatchesAppend(m, LinksFrom(pass, m, m[x], order[..n]), LinkPairsFrom(pass, m, m[x], order[..n]),
                    Links(pass, m[x], m[order[n]]), LinkPairs(pass, m[x], m[order[n]]));
    }
  }

  lemma {:induction false} AllLinksMatch(pass: Pass, m: IdMap, from: seq<ElementId>, order: seq<ElementId>)
    requires Coherent(m) && (forall id :: id in from ==> id in m) && forall id :: id in order ==> id in m
    ensures Matches(m, AllLinks(pass, m, from, order), AllLinkPairs(pass, m, from, order))
  {
    if from != [] {
      var n := |from| - 1;
      AllLinksMatch(pass, m, from[..n], order);
      assert from[n] in from;
      LinksFromMatch(pass, m, from[n], order);
      MatchesAppend(m, AllLinks(pass, m, from[..n], order), AllLinkPairs(pass, m, from[..n], order),
                    LinksFrom(pass, m, m[from[n]], order), LinkPairsFrom(pass, m, m[from[n]], order));
    }
  }

  /** The edges of a graph join exactly the pairs of its file, in order. */
  lemma EdgesMatch(m: IdMap, f: Rndf.File, order: seq<ElementId>)
    requires Coherent(m) && forall id :: id in order ==> id in m
    ensures Matches(m, AllEdges(m, f, order), AllPairs(m, f, order))
  {
    var p0, p1, p2 := RoadPairs(f.segments), RoadExitPairs(f.segments), ZoneExitPairs(f.zones);
    RoadMatches(m, f.segments);
    RoadExitsMatch(m, RoadEdges(m, f.segments), p0, f.segments);
    var e1 := WithRoadExits(m, RoadEdges(m, f.segments), f.segments);
    ZoneExitsMatch(m, f.zones);
    MatchesAppend(m, e1, p0 + p1, ZoneExitEdges(m, f.zones), p2);
    var e2, q2 := e1 + ZoneExitEdges(m, f.zones), p0 + p1 + p2;
    AllLinksMatch(Across, m, order, order);
    MatchesAppend(m, e2, q2, AllLinks(Across, m, order, order), AllLinkPairs(Across, m, order, order));
    var e3, q3 := e2 + AllLinks(Across, m, order, order), q2 + AllLinkPairs(Across, m, order, order);
    AllLinksMatch(ToSpots, m, order, order);
    MatchesAppend(m, e3, q3, AllLinks(ToSpots, m, order, order), AllLinkPairs(ToSpots, m, order, order));
    var e4, q4 := e3 + AllLinks(ToSpots, m, order, order), q3 + AllLinkPairs(ToSpots, m, order, order);
    AllLinksMatch(BetweenSpots, m, order, order);
    MatchesAppend(m, e4, q4, AllLinks(BetweenSpots, m, order, order), AllLinkPairs(BetweenSpots, m, order, order));
  }

  // ---------------------------------------------------------------- which pairs there are

  ghost predicate LanePair(segments: seq<Rndf.Segment>, p: Pair) {
    exists s, l, i: nat :: s in segments && l in s.lanes && i + 1 < |l.waypoints|
                           && p == (PointId(s.id, l, i), PointId(s.id, l, i + 1))
  }

  ghost predicate LaneExitPair(segments: seq<Rndf.Segment>, p: Pair) {
    exists s, l, e :: s in segments && l in s.lanes && e in l.exits
                      && !IsNext(StartId(e), EndId(e)) && p == (StartId(e), EndId(e))
  }

  ghost predicate ZoneExitPair(zones: seq<Rndf.Zone>, p: Pair) {
    exists z, e :: z in zones && e in z.perimeter.exits && p == (StartId(e), EndId(e))
  }

  ghost predicate LinkPair(pass: Pass, m: IdMap, from: seq<ElementId>, order: seq<ElementId>, p: Pair) {
    exists x, y :: x in from && y in order && p in LinkPairs(pass, At(m, x), At(m, y))
  }

  lemma {:induction false} LanesMembers(seg: int, lanes: seq<Rndf.Lane>, p: Pair)
    ensures p in LanesPairs(seg, lanes) <==>
      exists l, i: nat :: l in lanes && i + 1 < |l.waypoints| && p == (PointId(seg, l, i), PointId(seg, l, i + 1))
  {
    if lanes != [] {
      var n := |lanes| - 1;
      LanesMembers(seg, lanes[..n], p);
      assert lanes == lanes[..n] + [lanes[n]];
      var q := LanePairs(seg, lanes[n]);
      assert forall i: nat :: i + 1 < |lanes[n].waypoints| ==> q[i] == (PointId(seg, lanes[n], i), PointId(seg, lanes[n], i + 1));
    }
  }

  lemma {:induction false} RoadMembers(segments: seq<Rndf.Segment>, p: Pair)
    ensures p in RoadPairs(segments) <==> LanePair(segments, p)
  {
    if segments != [] {
      var n := |segments| - 1;
      RoadMembers(segments[..n], p);
      LanesMembers(segments[n].id, segments[n].lanes, p);
      assert segments == segments[..n] + [segments[n]];
    }
  }

  lemma {:induction false} ExitMembers(exits: seq<Rndf.Exit>, p: Pair)
    ensures p in ExitPairs(exits) <==>
      exists e :: e in exits && !IsNext(StartId(e), EndId(e)) && p == (StartId(e), EndId(e))
  {
    if exits != [] {
      var n := |exits| - 1;
      ExitMembers(exits[..n], p);
      assert exits == exits[..n] + [exits[n]];
    }
  }

  lemma {:induction false} LaneExitMembers(lanes: seq<Rndf.Lane>, p: Pair)
    ensures p in LaneExitPairs(lanes) <==>
      exists l, e :: l in lanes && e in l.exits && !IsNext(StartId(e), EndId(e)) && p == (StartId(e), EndId(e))
  {
    if lanes != [] {
      var n := |lanes| - 1;
      LaneExitMembers(lanes[..n], p);
      ExitMembers(lanes[n].exits, p);
      assert lanes == lanes[..n] + [lanes[n]];
    }
  }

  lemma {:induction false} RoadExitMembers(segments: seq<Rndf.Segment>, p: Pair)
    ensures p in RoadExitPairs(segments) <==> LaneExitPair(segments, p)
  {
    if segments != [] {
      var n := |segments| - 1;
      RoadExitMembers(segments[..n], p);
      LaneExitMembers(segments[n].lanes, p);
      assert segments == segments[..n] + [segments[n]];
    }
  }

  lemma AllExitMembers(exits: seq<Rndf.Exit>, p: Pair)
    ensures p in AllExitPairs(exits) <==> exists e :: e in exits && p == (StartId(e), EndId(e))
  {
    var r := AllExitPairs(exits);
    assert forall i :: 0 <= i < |exits| ==> r[i] == (StartId(exits[i]), EndId(exits[i]));
  }

  lemma {:induction false} ZoneExitMembers(zones: seq<Rndf.Zone>, p: Pair)
    ensures p in ZoneExitPairs(zones) <==> ZoneExitPair(zones, p)
  {
    if zones != [] {
      var n := |zones| - 1;
      ZoneExitMembers(zones[..n], p);
      AllExitMembers(zones[n].perimeter.exits, p);
      assert zones == zones[..n] + [zones[n]];
    }
  }

  lemma {:induction false} LinkFromMembers(pass: Pass, m: IdMap, a: Node, order: seq<ElementId>, p: Pair)
    ensures p in LinkPairsFrom(pass, m, a, order) <==> exists y :: y in order && p in LinkPairs(pass, a, At(m, y))
  {
    if order != [] {
      var n := |order| - 1;
      LinkFromMembers(pass, m, a, order[..n], p);
      assert order == order[..n] + [order[n]];
    }
  }

  lemma {:induction false} LinkMembers(pass: Pass, m: IdMap, from: seq<ElementId>, order: seq<ElementId>, p: Pair)
    ensures p in AllLinkPairs(pass, m, from, order) <==> LinkPair(pass, m, from, order, p)
  {
    if from != [] {
      var n := |from| - 1;
      LinkMembers(pass, m, from[..n], order, p);
      LinkFromMembers(pass, m, At(m, from[n]), order, p);
      assert from == from[..n] + [from[n]];
    }
  }

  lemma {:induction false} EdgesFromMembers(pass: Pass, m: IdMap, a: Node, order: seq<ElementId>, e: Edge)
    ensures e in LinksFrom(pass, m, a, order) <==> exists y :: y in order && e in Links(pass, a, At(m, y))
  {
    if order != [] {
      var n := |order| - 1;
      EdgesFromMembers(pass, m, a, order[..n], e);
      assert order == order[..n] + [order[n]];
    }
  }

  /** A pass adds an edge exactly if its rule asks for it between some two nodes. */
  lemma {:induction false} LinkedExactly(pass: Pass, m: IdMap, from: seq<ElementId>, order: seq<ElementId>, e: Edge)
    ensures e in AllLinks(pass, m, from, order) <==>
      exists x, y :: x in from && y in order && e in Links(pass, At(m, x), At(m, y))
  {
    if from != [] {
      var n := |from| - 1;
      LinkedExactly(pass, m, from[..n], order, e);
      EdgesFromMembers(pass, m, At(m, from[n]), order, e);
      assert from == from[..n] + [from[n]];
    }
  }

  /**
   * Two way-points are joined exactly if they follow each other in a lane, are the ends of an exit
   * that leaves the order of its lane or of an exit from a zone, or are linked within a zone.
   */
  lemma JoinedExactly(m: IdMap, f: Rndf.File, order: seq<ElementId>, p: Pair)
    ensures p in AllPairs(m, f, order) <==>
      || LanePair(f.segments, p) || LaneExitPair(f.segments, p) || ZoneExitPair(f.zones, p)
      || LinkPair(Across, m, order, order, p) || LinkPair(ToSpots, m, order, order, p)
      || LinkPair(BetweenSpots, m, order, order, p)
  {
    RoadMembers(f.segments, p);
    RoadExitMembers(f.segments, p);
    ZoneExitMembers(f.zones, p);
    LinkMembers(Across, m, order, order, p);
    LinkMembers(ToSpots, m, order, order, p);
    LinkMembers(BetweenSpots, m, order, order, p);
  }

  /** In the graph: an edge with given ends exists exactly if such a pair is joined. */
  lemma EdgeExists(m: IdMap, f: Rndf.File, order: seq<ElementId>, ends: Blockage.Ends)
    requires Coherent(m) && forall id :: id in order ==> id in m
    ensures Blockage.HasEnds(AllEdges(m, f, order), ends) <==>
      exists p :: p in AllPairs(m, f, order) && ends == (At(m, p.0).index, At(m, p.1).index)
  {
    EdgesMatch(m, f, order);
    MatchedEnds(m, AllEdges(m, f, order), AllPairs(m, f, order), ends);
  }

  lemma MatchedEnds(m: IdMap, edges: seq<Edge>, pairs: seq<Pair>, ends: Blockage.Ends)
    requires Matches(m, edges, pairs)
    ensures Blockage.HasEnds(edges, ends) <==> exists p :: p in pairs && ends == (At(m, p.0).index, At(m, p.1).index)
  {
    if Blockage.HasEnds(edges, ends) {
      var i :| 0 <= i < |edges| && Blockage.EndsOf(edges[i]) == ends;
      assert pairs[i] in pairs;
    }
    if p :| p in pairs && ends == (At(m, p.0).index, At(m, p.1).index) {
      var i :| 0 <= i < |pairs| && pairs[i] == p;
      assert edges[i] in edges;
    }
  }
}
