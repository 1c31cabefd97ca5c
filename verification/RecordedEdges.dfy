/** The edges of a recorded file: when they can be restored exactly. */
module RecordedEdges {
  import opened WayPoints
  import opened RndfGraph
  import opened GraphBuilding
  import opened EdgePairs
  import opened DistinctPairs
  import Rndf
  import opened RndfWriter
  import Pipeline = RndfPipeline
  import Blockage

  // ---------------------------------------------------------------- spots among the vertices

  /** The vertices of one spot. */
  function PointsOf(zone: int, s: Rndf.Spot): seq<Vertex> { VerticesOf(zone, s.id, s.waypoints, true, false) }

  lemma {:induction false} SpotOfVertex(zone: int, spots: seq<Rndf.Spot>, v: Vertex) returns (s: nat)
    requires v in SpotVertices(zone, spots)
    ensures s < |spots| && v in PointsOf(zone, spots[s])
  {
    var n := |spots| - 1;
    if v in PointsOf(zone, spots[n]) { s := n; } else { s := SpotOfVertex(zone, spots[..n], v); }
  }

  lemma {:induction false} SpotHasVertex(zone: int, spots: seq<Rndf.Spot>, s: nat, v: Vertex)
    requires s < |spots| && v in PointsOf(zone, spots[s])
    ensures v in SpotVertices(zone, spots)
  {
    var n := |spots| - 1;
    if s < n { SpotHasVertex(zone, spots[..n], s, v); }
  }

  lemma {:induction false} ZoneOfVertex(zones: seq<Rndf.Zone>, v: Vertex) returns (k: nat)
    requires v in ParkingVertices(zones)
    ensures k < |zones| && v in SpotVertices(zones[k].id, zones[k].spots)
  {
    var n := |zones| - 1;
    if v in SpotVertices(zones[n].id, zones[n].spots) { k := n; } else { k := ZoneOfVertex(zones[..n], v); }
  }

  lemma {:induction false} ZoneHasVertex(zones: seq<Rndf.Zone>, k: nat, v: Vertex)
    requires k < |zones| && v in SpotVertices(zones[k].id, zones[k].spots)
    ensures v in ParkingVertices(zones)
  {
    var n := |zones| - 1;
    if k < n { ZoneHasVertex(zones[..n], k, v); }
  }

  lemma PointMember(zone: int, points: seq<Point>, s: nat, v: Vertex) returns (w: nat)
    requires s < |Spots(points)| && v in PointsOf(zone, Spots(points)[s])
    ensures v.id == NewId(zone, s + 1, w + 1)
  {
    var vs := PointsOf(zone, SpotOf(points, s));
    w :| 0 <= w < |vs| && vs[w] == v;
  }

  lemma ParkingMember(first: int, areas: seq<Area>, v: Vertex) returns (k: nat, s: nat, w: nat)
    requires v in ParkingVertices(Zones(first, areas))
    ensures k < |areas| && s < |Spots(areas[k].spots)| && v.id == NewId(first + k, s + 1, w + 1)
  {
    k := ZoneOfVertex(Zones(first, areas), v);
    assert Zones(first, areas)[k] == ZoneOf(first + k, areas[k]);
    s := SpotOfVertex(first + k, Spots(areas[k].spots), v);
    w := PointMember(first + k, areas[k].spots, s, v);
  }

  /** The vertex of the first point of a spot. */
  function FirstPoint(zone: int, s: nat): Vertex { Vertex(NewId(zone, s + 1, 1), true, false) }

  lemma FirstIsPoint(zone: int, points: seq<Point>, s: nat)
    requires s < |Spots(points)|
    ensures FirstPoint(zone, s) in PointsOf(zone, Spots(points)[s])
  {
    var vs := PointsOf(zone, SpotOf(points, s));
    assert vs[0] == FirstPoint(zone, s);
  }

  lemma ParkingHas(first: int, areas: seq<Area>, k: nat, s: nat)
    requires k < |areas| && s < |Spots(areas[k].spots)|
    ensures FirstPoint(first + k, s) in ParkingVertices(Zones(first, areas))
  {
    var v := FirstPoint(first + k, s);
    FirstIsPoint(first + k, areas[k].spots, s);
    SpotHasVertex(first + k, Spots(areas[k].spots), s, v);
    assert Zones(first, areas)[k] == ZoneOf(first + k, areas[k]);
    ZoneHasVertex(Zones(first, areas), k, v);
  }

  // ---------------------------------------------------------------- two spots of a zone

  ghost predicate FewSpots(areas: seq<Area>) { forall k :: 0 <= k < |areas| ==> |areas[k].spots| <= 2 }

  lemma SpotNode(m: IdMap, f: Rndf.File, v: Vertex)
    requires MapOf(m, f) && v in ParkingVertices(f.zones)
    ensures v.id in m && m[v.id].isSpot
  {
    var a, b := RoadVertices(f.segments), ParkingVertices(f.zones);
    var i :| 0 <= i < |b| && b[i] == v;
    assert Vertices(f)[|a| + i] == v;
    VertexNumber(Vertices(f), |a| + i);
    ParkingVerticesKind(f.zones, v);
    assert v.id in Indexed(Vertices(f)).Keys;
  }

  lemma SpotVertex(m: IdMap, f: Rndf.File, x: ElementId) returns (v: Vertex)
    requires MapOf(m, f) && x in m && m[x].isSpot
    ensures v in ParkingVertices(f.zones) && v.id == x
  {
    assert x in Indexed(Vertices(f)).Keys;
    var i := NumberOf(Vertices(f), x);
    v := Vertices(f)[i];
    var a, b, c := RoadVertices(f.segments), ParkingVertices(f.zones), PerimeterVertices(f.zones);
    if i < |a| {
      assert v == a[i];
      RoadVerticesPlain(f.segments, v);
    } else if i >= |a| + |b| {
      assert v == c[i - |a| - |b|];
      PerimeterVerticesKind(f.zones, v);
    } else {
      assert v == b[i - |a|];
    }
  }

  lemma ManySpotsAreTwo(m: IdMap, name: string, lanes: seq<seq<Point>>, areas: seq<Area>, k: nat)
    requires MapOf(m, FileOf(name, lanes, areas)) && k < |areas| && |areas[k].spots| > 2
    ensures !SingleSpots(m)
  {
    var f, first := FileOf(name, lanes, areas), |lanes| + 1;
    ParkingHas(first, areas, k, 0);
    ParkingHas(first, areas, k, 1);
    SpotNode(m, f, FirstPoint(first + k, 0));
    SpotNode(m, f, FirstPoint(first + k, 1));
    assert TwoSpots(m, FirstPoint(first + k, 0).id, FirstPoint(first + k, 1).id);
  }

  lemma TwoSpotsAreMany(
      m: IdMap, name: string, lanes: seq<seq<Point>>, areas: seq<Area>, x: ElementId, y: ElementId)
    requires MapOf(m, FileOf(name, lanes, areas)) && Acceptable(lanes, areas) && TwoSpots(m, x, y)
    ensures !FewSpots(areas)
  {
    var f, first := FileOf(name, lanes, areas), |lanes| + 1;
    Pipeline.IndexableIsSmall(name, lanes, areas);
    var v := SpotVertex(m, f, x);
    var w := SpotVertex(m, f, y);
    var k, s, p := ParkingMember(first, areas, v);
    var k', s', p' := ParkingMember(first, areas, w);
    if k != k' { ShortInjective(first + k, first + k'); }
    assert k == k' && s != s';
    assert |Spots(areas[k].spots)| >= 2;
  }

  // ---------------------------------------------------------------- recorded files have no exits

  lemma {:induction false} RecordedRoadExits(lanes: seq<seq<Point>>)
    ensures RoadExitPairs(Segments(lanes)) == []
  {
    if lanes != [] {
      var n := |lanes| - 1;
      var all := Segments(lanes);
      RecordedRoadExits(lanes[..n]);
      assert all[..n] == Segments(lanes[..n]);
      var l := LaneOf(lanes[n]);
      assert all[n].lanes == [l] && [l][..0] == [];
      assert LaneExitPairs([l]) == [];
    }
  }

  lemma {:induction false} RecordedZoneExits(first: int, areas: seq<Area>)
    ensures ZoneExitPairs(Zones(first, areas)) == []
  {
    if areas != [] {
      var n := |areas| - 1;
      RecordedZoneExits(first, areas[..n]);
      Pipeline.ZonesSnoc(first, areas);
      ZoneExitSnoc(Zones(first, areas[..n]), ZoneOf(first + n, areas[n]));
    }
  }

  lemma ZoneExitSnoc(zones: seq<Rndf.Zone>, z: Rndf.Zone)
    ensures ZoneExitPairs(zones + [z]) == ZoneExitPairs(zones) + AllExitPairs(z.perimeter.exits)
  {
    assert (zones + [z])[..|zones|] == zones;
  }

  lemma NoExits(name: string, lanes: seq<seq<Point>>, areas: seq<Area>)
    ensures ExitList(FileOf(name, lanes, areas)) == []
  {
    RecordedRoadExits(lanes);
    RecordedZoneExits(|lanes| + 1, areas);
  }

  lemma {:induction false} RecordedRoadFlags(lanes: seq<seq<Point>>)
    ensures RoadExits(Segments(lanes)) == []
  {
    if lanes != [] {
      var n := |lanes| - 1;
      var all := Segments(lanes);
      RecordedRoadFlags(lanes[..n]);
      assert all[..n] == Segments(lanes[..n]);
      var l := LaneOf(lanes[n]);
      assert all[n].lanes == [l] && [l][..0] == [];
      assert LaneExits([l]) == [];
    }
  }

  lemma {:induction false} RecordedZoneFlags(first: int, areas: seq<Area>)
    ensures ZoneExits(Zones(first, areas)) == []
  {
    if areas != [] {
      var n := |areas| - 1;
      RecordedZoneFlags(first, areas[..n]);
      Pipeline.ZonesSnoc(first, areas);
      var zones, z := Zones(first, areas[..n]), ZoneOf(first + n, areas[n]);
      assert (zones + [z])[..n] == zones;
    }
  }

  lemma NoFlags(m: IdMap, name: string, lanes: seq<seq<Point>>, areas: seq<Area>)
    requires FlaggedBy(m, FileOf(name, lanes, areas))
    ensures forall id :: id in m ==> !m[id].isExit && !m[id].isEntry
  {
    RecordedRoadFlags(lanes);
    RecordedZoneFlags(|lanes| + 1, areas);
  }

  /** The flags of the map are those that the lines of the file set. */
  ghost predicate FlaggedBy(m: IdMap, f: Rndf.File) {
    Flagged(m, ZoneExits(f.zones) + RoadExits(f.segments), RoadStops(f.segments))
  }

  /**
   * The graph of a recorded file has no two edges with the same ends if and only if no zone was
   * recorded with more than one spot.
   */
  lemma RecordedDistinctExactly(m: IdMap, name: string, lanes: seq<seq<Point>>, areas: seq<Area>, order: seq<ElementId>)
    requires Acceptable(lanes, areas) && MapOf(m, FileOf(name, lanes, areas)) && Enumerates(order, m)
    requires FlaggedBy(m, FileOf(name, lanes, areas))
    ensures Blockage.DistinctEnds(AllEdges(m, FileOf(name, lanes, areas), order)) <==> FewSpots(areas)
  {
    var f := FileOf(name, lanes, areas);
    RecordedIsClean(m, name, lanes, areas);
    Pipeline.RoadResolved(m, lanes);
    Pipeline.ZonesResolved(m, |lanes| + 1, areas);
    DistinctExactly(m, f, order);
    SingleIsFew(m, name, lanes, areas);
  }

  lemma RecordedIsClean(m: IdMap, name: string, lanes: seq<seq<Point>>, areas: seq<Area>)
    requires FlaggedBy(m, FileOf(name, lanes, areas))
    ensures CleanExits(m, FileOf(name, lanes, areas)) && SpotsUnused(m)
  {
    NoExits(name, lanes, areas);
    NoFlags(m, name, lanes, areas);
  }

  lemma SingleIsFew(m: IdMap, name: string, lanes: seq<seq<Point>>, areas: seq<Area>)
    requires Acceptable(lanes, areas) && MapOf(m, FileOf(name, lanes, areas))
    ensures SingleSpots(m) <==> FewSpots(areas)
  {
    if !FewSpots(areas) {
      var k :| 0 <= k < |areas| && |areas[k].spots| > 2;
      ManySpotsAreTwo(m, name, lanes, areas, k);
    }
    if !SingleSpots(m) {
      var x, y :| TwoSpots(m, x, y);
      TwoSpotsAreMany(m, name, lanes, areas, x, y);
    }
  }
}
