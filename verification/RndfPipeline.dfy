/** From recorded points through the written file and the parser to a well-formed graph. */
module RndfPipeline {
  import opened WayPoints
  import opened RndfGraph
  import opened GraphBuilding
  import Rndf
  import opened RndfWriter

  /** What is left in 16 bits of some number in the range. */
  ghost predicate ShortOf(x: int, low: int, high: int) { exists n :: low <= n < high && x == Short(n) }

  ghost predicate SegmentsBetween(vs: seq<Vertex>, low: int, high: int) {
    forall v :: v in vs ==> ShortOf(v.id.seg, low, high)
  }

  ghost predicate Apart(a: seq<Vertex>, b: seq<Vertex>) {
    forall v, w :: v in a && w in b ==> v.id != w.id
  }

  lemma DistinctAppend(a: seq<Vertex>, b: seq<Vertex>)
    requires Distinct(a) && Distinct(b) && Apart(a, b)
    ensures Distinct(a + b)
  {
    var s := a + b;
    forall i, j | 0 <= i < j < |s| ensures s[i].id != s[j].id {
      if i < |a| <= j {
        assert s[i] in a && s[j] in b;
      } else if j < |a| {
        assert a[i].id != a[j].id;
      } else {
        assert b[i - |a|].id != b[j - |a|].id;
      }
    }
  }

  /** Numbers from adjoining ranges stay different if both ranges fit in 16 bits. */
  lemma ShortsApart(x: int, y: int, low: int, mid: int, high: int)
    requires ShortOf(x, low, mid) && ShortOf(y, mid, high) && high - low <= INDEX_LIMIT
    ensures x != y
  {
    var m :| low <= m < mid && x == Short(m);
    var n :| mid <= n < high && y == Short(n);
    ShortInjective(m, n);
  }

  lemma SegmentsApart(a: seq<Vertex>, b: seq<Vertex>, low: int, mid: int, high: int)
    requires SegmentsBetween(a, low, mid) && SegmentsBetween(b, mid, high) && high - low <= INDEX_LIMIT
    ensures Apart(a, b)
  {
    forall v, w | v in a && w in b ensures v.id != w.id { ShortsApart(v.id.seg, w.id.seg, low, mid, high); }
  }

  lemma SegmentsWiden(vs: seq<Vertex>, low: int, high: int, low': int, high': int)
    requires SegmentsBetween(vs, low, high) && low' <= low && high <= high'
    ensures SegmentsBetween(vs, low', high')
  {
    forall v | v in vs ensures ShortOf(v.id.seg, low', high') {
      var n :| low <= n < high && v.id.seg == Short(n);
    }
  }

  /** The way-points of one element are numbered from 1. */
  lemma ElementDistinct(seg: int, lane: int, points: seq<Point>, isSpot: bool, isPerimeter: bool)
    requires |points| <= INDEX_LIMIT
    ensures var vs := VerticesOf(seg, lane, Waypoints(points), isSpot, isPerimeter);
      Distinct(vs) && forall v :: v in vs ==> v.id.seg == Short(seg) && v.id.lane == Short(lane)
  {
    var vs := VerticesOf(seg, lane, Waypoints(points), isSpot, isPerimeter);
    forall i, j | 0 <= i < j < |vs| ensures vs[i].id != vs[j].id {
      ShortInjective(i + 1, j + 1);
    }
  }

  /** How much of a file the 16-bit numbers can tell apart. */
  ghost predicate Small(lanes: seq<seq<Point>>, areas: seq<Area>) {
    && |lanes| + |areas| <= INDEX_LIMIT
    && (forall i :: 0 <= i < |lanes| ==> |lanes[i]| <= INDEX_LIMIT)
    && (forall i :: 0 <= i < |areas| ==> |areas[i].perimeter| <= INDEX_LIMIT && |areas[i].spots| <= INDEX_LIMIT)
  }

  lemma {:induction false} RoadDistinct(lanes: seq<seq<Point>>)
    requires Small(lanes, [])
    ensures Distinct(RoadVertices(Segments(lanes))) && SegmentsBetween(RoadVertices(Segments(lanes)), 1, |lanes| + 1)
  {
    if lanes != [] {
      var n := |lanes| - 1;
      var all := Segments(lanes);
      RoadDistinct(lanes[..n]);
      assert all[..n] == Segments(lanes[..n]);
      OneLane(n + 1, lanes[n]);
      assert all[n] == Rndf.Segment(n + 1, 1, "default", [LaneOf(lanes[n])]);
      NextGroup(RoadVertices(all[..n]), LaneVertices(n + 1, [LaneOf(lanes[n])]), 1, n + 1);
    }
  }

  /** A group in the next segment extends distinct ones in the segments before. */
  lemma NextGroup(a: seq<Vertex>, b: seq<Vertex>, low: int, next: int)
    requires Distinct(a) && Distinct(b) && low <= next && next + 1 - low <= INDEX_LIMIT
    requires SegmentsBetween(a, low, next) && forall v :: v in b ==> v.id.seg == Short(next)
    ensures Distinct(a + b) && SegmentsBetween(a + b, low, next + 1)
  {
    forall v | v in b ensures ShortOf(v.id.seg, next, next + 1) {
      assert next <= next < next + 1 && v.id.seg == Short(next);
    }
    SegmentsApart(a, b, low, next, next + 1);
    DistinctAppend(a, b);
    SegmentsWiden(a, low, next, low, next + 1);
    SegmentsWiden(b, next, next + 1, low, next + 1);
  }

  lemma OneLane(seg: int, lane: seq<Point>)
    requires |lane| <= INDEX_LIMIT
    ensures var vs := LaneVertices(seg, [LaneOf(lane)]); Distinct(vs) && forall v :: v in vs ==> v.id.seg == Short(seg)
  {
    var l := LaneOf(lane);
    assert [l][..0] == [] && LaneVertices(seg, [l][..0]) == [];
    assert LaneVertices(seg, [l]) == VerticesOf(seg, 1, Waypoints(lane), false, false);
    ElementDistinct(seg, 1, lane, false, false);
  }

  ghost predicate SpotsBetween(vs: seq<Vertex>, zone: int, high: int) {
    forall v :: v in vs ==> v.id.seg == Short(zone) && ShortOf(v.id.lane, 1, high)
  }

  lemma NextSpot(a: seq<Vertex>, b: seq<Vertex>, zone: int, k: nat)
    requires Distinct(a) && Distinct(b) && 0 < k < INDEX_LIMIT && SpotsBetween(a, zone, k)
    requires forall v :: v in b ==> v.id.seg == Short(zone) && v.id.lane == Short(k)
    ensures Distinct(a + b) && SpotsBetween(a + b, zone, k + 1)
  {
    forall v, w | v in a && w in b ensures v.id != w.id {
      assert ShortOf(w.id.lane, k, k + 1) by { assert k <= k < k + 1 && w.id.lane == Short(k); }
      ShortsApart(v.id.lane, w.id.lane, 1, k, k + 1);
    }
    DistinctAppend(a, b);
    forall v | v in a + b ensures ShortOf(v.id.lane, 1, k + 1) {
      if v in a {
        var n :| 1 <= n < k && v.id.lane == Short(n);
      } else {
        assert 1 <= k < k + 1 && v.id.lane == Short(k);
      }
    }
  }

  lemma {:induction false} SpotsDistinct(zone: int, points: seq<Point>, k: nat)
    requires k <= |Spots(points)| && |points| <= INDEX_LIMIT
    ensures var vs := SpotVertices(zone, Spots(points)[..k]); Distinct(vs) && SpotsBetween(vs, zone, k + 1)
    decreases k
  {
    if k > 0 {
      var all := Spots(points);
      SpotsDistinct(zone, points, k - 1);
      assert all[..k][..k - 1] == all[..k - 1];
      var pair := points[2 * (k - 1)..Least(2 * k, |points|)];
      assert all[k - 1] == SpotOf(points, k - 1);
      ElementDistinct(zone, k, pair, true, false);
      NextSpot(SpotVertices(zone, all[..k - 1]), VerticesOf(zone, k, Waypoints(pair), true, false), zone, k);
    }
  }

  // ---------------------------------------------------------------- groups of vertices in successive zones

  ghost predicate PerimeterLanes(vs: seq<Vertex>, yes: bool) { forall v :: v in vs ==> (v.id.lane == 0) == yes }

  ghost predicate OneZone(vs: seq<Vertex>, zone: int, perimeter: bool) {
    Distinct(vs) && (forall v :: v in vs ==> v.id.seg == Short(zone)) && PerimeterLanes(vs, perimeter)
  }

  ghost predicate ManyZones(vs: seq<Vertex>, low: int, high: int, perimeter: bool) {
    Distinct(vs) && SegmentsBetween(vs, low, high) && PerimeterLanes(vs, perimeter)
  }

  lemma NextZone(a: seq<Vertex>, b: seq<Vertex>, low: int, next: int, perimeter: bool, all: seq<Vertex>)
    requires low <= next && next + 1 - low <= INDEX_LIMIT && all == a + b
    requires ManyZones(a, low, next, perimeter) && OneZone(b, next, perimeter)
    ensures ManyZones(all, low, next + 1, perimeter)
  {
    NextGroup(a, b, low, next);
  }

  lemma ZonesSnoc(first: int, areas: seq<Area>)
    requires areas != []
    ensures var n := |areas| - 1; Zones(first, areas) == Zones(first, areas[..n]) + [ZoneOf(first + n, areas[n])]
  {}

  lemma ParkingSnoc(zones: seq<Rndf.Zone>, z: Rndf.Zone)
    ensures ParkingVertices(zones + [z]) == ParkingVertices(zones) + SpotVertices(z.id, z.spots)
  {
    assert (zones + [z])[..|zones|] == zones;
  }

  lemma PerimeterSnoc(zones: seq<Rndf.Zone>, z: Rndf.Zone)
    ensures PerimeterVertices(zones + [z]) ==
      PerimeterVertices(zones) + VerticesOf(z.id, z.perimeter.id, z.perimeter.points, false, true)
  {
    assert (zones + [z])[..|zones|] == zones;
  }

  lemma {:induction false} ParkingDistinct(first: int, areas: seq<Area>)
    requires Small([], areas)
    ensures ManyZones(ParkingVertices(Zones(first, areas)), first, first + |areas|, false)
  {
    if areas != [] {
      var n := |areas| - 1;
      var z := ZoneOf(first + n, areas[n]);
      ParkingDistinct(first, areas[..n]);
      ZonesSnoc(first, areas);
      ParkingSnoc(Zones(first, areas[..n]), z);
      OneParking(first + n, areas[n].spots);
      NextZone(ParkingVertices(Zones(first, areas[..n])), SpotVertices(z.id, z.spots), first, first + n, false,
               ParkingVertices(Zones(first, areas)));
    }
  }

  lemma OneParking(zone: int, points: seq<Point>)
    requires |points| <= INDEX_LIMIT
    ensures OneZone(SpotVertices(zone, Spots(points)), zone, false)
  {
    var spots := Spots(points);
    SpotsDistinct(zone, points, |spots|);
    assert spots[..|spots|] == spots;
    SpotsAreLanes(SpotVertices(zone, spots), zone, |spots| + 1);
  }

  /** The number of a spot never becomes that of a perimeter. */
  lemma SpotsAreLanes(vs: seq<Vertex>, zone: int, high: int)
    requires SpotsBetween(vs, zone, high) && high <= INDEX_LIMIT
    ensures forall v :: v in vs ==> v.id.lane != 0
  {
    forall v | v in vs ensures v.id.lane != 0 {
      var n :| 1 <= n < high && v.id.lane == Short(n);
      ShortInjective(n, 0);
    }
  }

  lemma {:induction false} PerimetersDistinct(first: int, areas: seq<Area>)
    requires Small([], areas)
    ensures ManyZones(PerimeterVertices(Zones(first, areas)), first, first + |areas|, true)
  {
    if areas != [] {
      var n := |areas| - 1;
      var z := ZoneOf(first + n, areas[n]);
      PerimetersDistinct(first, areas[..n]);
      ZonesSnoc(first, areas);
      PerimeterSnoc(Zones(first, areas[..n]), z);
      OnePerimeter(first + n, areas[n].perimeter);
      NextZone(PerimeterVertices(Zones(first, areas[..n])), VerticesOf(z.id, z.perimeter.id, z.perimeter.points, false, true),
               first, first + n, true, PerimeterVertices(Zones(first, areas)));
    }
  }

  lemma OnePerimeter(zone: int, points: seq<Point>)
    requires |points| <= INDEX_LIMIT
    ensures OneZone(VerticesOf(zone, 0, Waypoints(points), false, true), zone, true)
  {
    ElementDistinct(zone, 0, points, false, true);
  }

  lemma RoadResolved(m: IdMap, lanes: seq<seq<Point>>)
    ensures forall s :: s in Segments(lanes) ==> SegmentResolved(m, s)
  {
  }

  lemma ZonesResolved(m: IdMap, first: int, areas: seq<Area>)
    ensures forall z :: z in Zones(first, areas) ==> ZoneResolved(m, z)
  {
  }

  lemma GroupsDistinct(a: seq<Vertex>, b: seq<Vertex>, c: seq<Vertex>, n: int, high: int)
    requires Distinct(a) && SegmentsBetween(a, 1, n) && 1 <= n <= high <= INDEX_LIMIT + 1
    requires ManyZones(b, n, high, false) && ManyZones(c, n, high, true)
    ensures Distinct(a + b + c)
  {
    SegmentsApart(a, b, 1, n, high);
    SegmentsApart(a, c, 1, n, high);
    DistinctAppend(a, b);
    assert Apart(a + b, c);
    DistinctAppend(a + b, c);
  }

  // ---------------------------------------------------------------- a graph that can be indexed is small

  lemma {:induction false} RoadSize(lanes: seq<seq<Point>>)
    requires NonEmpty(lanes)
    ensures |RoadVertices(Segments(lanes))| >= |lanes|
    ensures forall i :: 0 <= i < |lanes| ==> |lanes[i]| <= |RoadVertices(Segments(lanes))|
  {
    if lanes != [] {
      var n := |lanes| - 1;
      var all := Segments(lanes);
      RoadSize(lanes[..n]);
      assert all[..n] == Segments(lanes[..n]);
      var l := LaneOf(lanes[n]);
      assert all[n].lanes == [l] && [l][..0] == [];
      assert |LaneVertices(n + 1, [l])| == |lanes[n]|;
      forall i | 0 <= i < |lanes| ensures |lanes[i]| <= |RoadVertices(all)| {
        if i < n { assert lanes[..n][i] == lanes[i]; }
      }
    }
  }

  lemma {:induction false} PerimeterSize(first: int, areas: seq<Area>)
    requires Enclosed(areas)
    ensures |PerimeterVertices(Zones(first, areas))| >= |areas|
    ensures forall i :: 0 <= i < |areas| ==> |areas[i].perimeter| <= |PerimeterVertices(Zones(first, areas))|
  {
    if areas != [] {
      var n := |areas| - 1;
      var all := Zones(first, areas);
      PerimeterSize(first, areas[..n]);
      assert all[..n] == Zones(first, areas[..n]);
      forall i | 0 <= i < |areas| ensures |areas[i].perimeter| <= |PerimeterVertices(all)| {
        if i < n { assert areas[..n][i] == areas[i]; }
      }
    }
  }

  lemma {:induction false} SpotSize(zone: int, points: seq<Point>, k: nat)
    requires k <= |Spots(points)|
    ensures |SpotVertices(zone, Spots(points)[..k])| == Least(2 * k, |points|)
    decreases k
  {
    if k > 0 {
      var all := Spots(points);
      SpotSize(zone, points, k - 1);
      assert all[..k][..k - 1] == all[..k - 1];
      assert all[k - 1] == SpotOf(points, k - 1);
    }
  }

  lemma {:induction false} ParkingSize(first: int, areas: seq<Area>)
    ensures forall i :: 0 <= i < |areas| ==> |areas[i].spots| <= |ParkingVertices(Zones(first, areas))|
  {
    if areas != [] {
      var n := |areas| - 1;
      var all := Zones(first, areas);
      ParkingSize(first, areas[..n]);
      assert all[..n] == Zones(first, areas[..n]);
      var spots := Spots(areas[n].spots);
      SpotSize(first + n, areas[n].spots, |spots|);
      assert spots[..|spots|] == spots;
      forall i | 0 <= i < |areas| ensures |areas[i].spots| <= |ParkingVertices(all)| {
        if i < n { assert areas[..n][i] == areas[i]; }
      }
    }
  }

  lemma IndexableIsSmall(name: string, lanes: seq<seq<Point>>, areas: seq<Area>)
    requires Acceptable(lanes, areas) && |Vertices(FileOf(name, lanes, areas))| <= INDEX_LIMIT
    ensures Small(lanes, areas)
  {
    RoadSize(lanes);
    PerimeterSize(|lanes| + 1, areas);
    ParkingSize(|lanes| + 1, areas);
  }

  /** With at most 65536 way-points the 16-bit identifiers of a written file are distinct. */
  lemma WrittenIsDistinct(name: string, lanes: seq<seq<Point>>, areas: seq<Area>)
    requires Acceptable(lanes, areas) && |Vertices(FileOf(name, lanes, areas))| <= INDEX_LIMIT
    ensures Distinct(Vertices(FileOf(name, lanes, areas)))
  {
    var f, n := FileOf(name, lanes, areas), |lanes| + 1;
    IndexableIsSmall(name, lanes, areas);
    RoadDistinct(lanes);
    ParkingDistinct(n, areas);
    PerimetersDistinct(n, areas);
    GroupsDistinct(RoadVertices(f.segments), ParkingVertices(f.zones), PerimeterVertices(f.zones), n, n + |areas|);
  }

  /** Nothing that a written file refers to is missing. */
  lemma WrittenIsResolved(name: string, lanes: seq<seq<Point>>, areas: seq<Area>)
    ensures var f := FileOf(name, lanes, areas); Resolved(Indexed(Vertices(f)), f)
  {
    var f := FileOf(name, lanes, areas);
    RoadResolved(Indexed(Vertices(f)), lanes);
    ZonesResolved(Indexed(Vertices(f)), |lanes| + 1, areas);
  }

  /**
   * End to end: recorded points that are acceptable come back from the file with resolved
   * references and, as long as 16 bits can index them, with distinct identifiers: what building
   * the graph needs to succeed.
   */
  lemma RecordedPointsBuild(name: string, lanes: seq<seq<Point>>, areas: seq<Area>)
    requires AllRecorded(lanes, areas) && Acceptable(lanes, areas)
    ensures var r := Rndf.Parsed(Written(name, lanes, areas));
      && r.Some? && Resolved(Indexed(Vertices(r.value)), r.value)
      && (|Vertices(r.value)| <= INDEX_LIMIT ==> Distinct(Vertices(r.value)))
  {
    RoundTrip(name, lanes, areas);
    WrittenIsResolved(name, lanes, areas);
    if |Vertices(FileOf(name, lanes, areas))| <= INDEX_LIMIT { WrittenIsDistinct(name, lanes, areas); }
  }
}
