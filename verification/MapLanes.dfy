/** Tiling of a lane with quadrilaterals by recursive halving. */
module MapLanes {
  import opened WayPoints

  const WAY_POLY_SIZE := 0.5
  const FLOAT_VALUE := 0.00001

  /** A lane polygon: p1 and p4 at its back, p2 and p3 at its front. */
  datatype Poly = Poly(
    p1: MapXY, p2: MapXY, p3: MapXY, p4: MapXY,
    polyId: int, startWay: ElementId, endWay: ElementId, containsWay: bool)

  type Curve = real -> MapXY

  /** A boundary curve with the parameters of its two end knots. */
  datatype Side = Side(curve: Curve, from: real, to: real)

  datatype WayPt = WayPt(id: ElementId, xy: MapXY)

  /** Geometry that the tiling takes as given. */
  datatype Geometry = Geometry(
    distance: (MapXY, MapXY) -> real,
    wayPoly: (ElementId, real) -> Poly,
    left: (Poly, Poly) -> Side,
    right: (Poly, Poly) -> Side,
    close: (real, real) -> bool)  // when a piece needs no further halving

  /** The rule of the map: a piece is short enough for its straight distance e and curve distance c. */
  function CloseEnough(maxPolySize: real): (real, real) -> bool {
    (e: real, c: real) => c != 0.0 && c <= maxPolySize * e / c
  }

  function Mid(p: MapXY, q: MapXY): MapXY { MapXY((p.x + q.x) / 2.0, (p.y + q.y) / 2.0) }
  function Half(a: real, b: real): real { (a + b) / 2.0 }

  // ---------------------------------------------------------------- where the cuts fall

  /** Stop halving: the piece is tiny, or short enough compared with its curvature. */
  predicate Fits(g: Geometry, w1: MapXY, w2: MapXY, t1: real, t2: real)
    requires t1 < t2
  {
    var e, c := g.distance(w1, w2), t2 - t1;
    NearZero(c) || NearZero(e) || g.close(e, c)
  }

  /** Halvings that can still be made before the interval is tiny. */
  function Depth(t1: real, t2: real): nat { if t2 <= t1 then 0 else ((t2 - t1) / FLOAT_VALUE).Floor }

  lemma HalvingDescends(t1: real, t2: real)
    requires t2 - t1 >= FLOAT_VALUE
    ensures Depth(t1, Half(t1, t2)) < Depth(t1, t2) && Depth(Half(t1, t2), t2) < Depth(t1, t2)
    ensures t1 < Half(t1, t2) < t2
  {
    var x := (t2 - t1) / FLOAT_VALUE;
    assert (Half(t1, t2) - t1) / FLOAT_VALUE == x / 2.0 && (t2 - Half(t1, t2)) / FLOAT_VALUE == x / 2.0;
    assert x >= 1.0;
  }

  function Scaled(fs: seq<real>, offset: real): (r: seq<real>)
    ensures |r| == |fs| && forall i :: 0 <= i < |fs| ==> r[i] == (fs[i] + offset) / 2.0
  {
    seq(|fs|, i requires 0 <= i < |fs| => (fs[i] + offset) / 2.0)
  }

  /** The front ends of the tiles of a piece, as fractions of it. */
  function Cuts(g: Geometry, c: Curve, w1: MapXY, w2: MapXY, t1: real, t2: real): seq<real>
    decreases Depth(t1, t2)
  {
    if t2 <= t1 then []
    else if Fits(g, w1, w2, t1, t2) then [1.0]
    else
      HalvingDescends(t1, t2);
      var m, tm := Mid(c(t1), c(t2)), Half(t1, t2);
      Scaled(Cuts(g, c, c(t1), m, t1, tm), 0.0) + Scaled(Cuts(g, c, m, c(t2), tm, t2), 1.0)
  }

  /** Increasing fractions in (0, 1] that end at 1. */
  ghost predicate Partition(fs: seq<real>) {
    && fs != [] && fs[|fs| - 1] == 1.0 && 0.0 < fs[0]
    && forall i, j :: 0 <= i < j < |fs| ==> fs[i] < fs[j]
  }

  lemma JoinPartitions(a: seq<real>, b: seq<real>)
    requires Partition(a) && Partition(b)
    ensures Partition(Scaled(a, 0.0) + Scaled(b, 1.0))
  {
    assert forall i :: 0 <= i < |a| ==> a[i] <= 1.0;
    assert forall i :: 0 <= i < |b| ==> b[0] <= b[i];
  }

  /** The cuts of every piece of positive length are a partition of it: no gap, no overlap. */
  lemma {:induction false} CutsPartition(g: Geometry, c: Curve, w1: MapXY, w2: MapXY, t1: real, t2: real)
    requires t1 < t2
    ensures Partition(Cuts(g, c, w1, w2, t1, t2))
    decreases Depth(t1, t2)
  {
    if !Fits(g, w1, w2, t1, t2) {
      HalvingDescends(t1, t2);
      var m, tm := Mid(c(t1), c(t2)), Half(t1, t2);
      CutsPartition(g, c, c(t1), m, t1, tm);
      CutsPartition(g, c, m, c(t2), tm, t2);
      JoinPartitions(Cuts(g, c, c(t1), m, t1, tm), Cuts(g, c, m, c(t2), tm, t2));
    }
  }

  // ---------------------------------------------------------------- the tiles

  function Lerp(a: real, b: real, f: real): real { a + (b - a) * f }

  lemma LerpHalves(a: real, b: real, f: real)
    ensures Lerp(a, Half(a, b), f) == Lerp(a, b, f / 2.0)
    ensures Lerp(Half(a, b), b, f) == Lerp(a, b, (f + 1.0) / 2.0)
  {}

  /** The boundary of a piece: its two sides and the way-points it joins. */
  datatype Strip = Strip(l: Side, r: Side, from: ElementId, to: ElementId)

  /** The tile behind which the next one starts, ending at fraction f of the strip. */
  function Tile(prev: Poly, strip: Strip, f: real, id: int): Poly {
    Poly(prev.p2,
         strip.l.curve(Lerp(strip.l.from, strip.l.to, f)),
         strip.r.curve(Lerp(strip.r.from, strip.r.to, f)),
         prev.p3, id, strip.from, strip.to, false)
  }

  /** The list after the tiles of a strip have been appended. */
  function Tiled(polys: seq<Poly>, strip: Strip, fs: seq<real>): (r: seq<Poly>)
    requires polys != []
    ensures |r| == |polys| + |fs|
  {
    if fs == [] then polys
    else
      var before := Tiled(polys, strip, fs[..|fs| - 1]);
      before + [Tile(before[|before| - 1], strip, fs[|fs| - 1], |before|)]
  }

  lemma {:induction false} TiledConcat(polys: seq<Poly>, strip: Strip, a: seq<real>, b: seq<real>)
    requires polys != []
    ensures Tiled(polys, strip, a + b) == Tiled(Tiled(polys, strip, a), strip, b)
  {
    if b == [] {
      assert a + b == a;
    } else {
      TiledConcat(polys, strip, a, b[..|b| - 1]);
      assert (a + b)[..|a + b| - 1] == a + b[..|b| - 1];
    }
  }

  /** half is the half of the strip whose fraction f is the strip's (f + offset) / 2. */
  ghost predicate IsHalf(strip: Strip, half: Strip, offset: real) {
    && half.from == strip.from && half.to == strip.to
    && half.l.curve == strip.l.curve && half.r.curve == strip.r.curve
    && forall f ::
         && Lerp(half.l.from, half.l.to, f) == Lerp(strip.l.from, strip.l.to, (f + offset) / 2.0)
         && Lerp(half.r.from, half.r.to, f) == Lerp(strip.r.from, strip.r.to, (f + offset) / 2.0)
  }

  lemma TileHalf(prev: Poly, strip: Strip, half: Strip, f: real, offset: real, id: int)
    requires IsHalf(strip, half, offset)
    ensures Tile(prev, half, f, id) == Tile(prev, strip, (f + offset) / 2.0, id)
  {}

  /** The same tiles seen from the strip and from the half of it they lie in. */
  lemma {:induction false} TiledHalf(polys: seq<Poly>, strip: Strip, half: Strip, fs: seq<real>, offset: real)
    requires polys != [] && IsHalf(strip, half, offset)
    ensures Tiled(polys, half, fs) == Tiled(polys, strip, Scaled(fs, offset))
  {
    if fs != [] {
      var prior := fs[..|fs| - 1];
      TiledHalf(polys, strip, half, prior, offset);
      assert Scaled(fs, offset)[..|fs| - 1] == Scaled(prior, offset);
      var before := Tiled(polys, half, prior);
      TileHalf(before[|before| - 1], strip, half, fs[|fs| - 1], offset, |before|);
    }
  }

  function FirstHalf(s: Strip): Strip {
    s.(l := s.l.(to := Half(s.l.from, s.l.to)), r := s.r.(to := Half(s.r.from, s.r.to)))
  }

  function SecondHalf(s: Strip): Strip {
    s.(l := s.l.(from := Half(s.l.from, s.l.to)), r := s.r.(from := Half(s.r.from, s.r.to)))
  }

  /** Tiling the two halves one after the other is tiling the whole with the joined cuts. */
  lemma TiledHalves(polys: seq<Poly>, strip: Strip, a: seq<real>, b: seq<real>)
    requires polys != []
    ensures Tiled(Tiled(polys, FirstHalf(strip), a), SecondHalf(strip), b)
         == Tiled(polys, strip, Scaled(a, 0.0) + Scaled(b, 1.0))
  {
    forall f
      ensures Lerp(strip.l.from, Half(strip.l.from, strip.l.to), f) == Lerp(strip.l.from, strip.l.to, (f + 0.0) / 2.0)
      ensures Lerp(strip.r.from, Half(strip.r.from, strip.r.to), f) == Lerp(strip.r.from, strip.r.to, (f + 0.0) / 2.0)
      ensures Lerp(Half(strip.l.from, strip.l.to), strip.l.to, f) == Lerp(strip.l.from, strip.l.to, (f + 1.0) / 2.0)
      ensures Lerp(Half(strip.r.from, strip.r.to), strip.r.to, f) == Lerp(strip.r.from, strip.r.to, (f + 1.0) / 2.0)
    {
      LerpHalves(strip.l.from, strip.l.to, f);
      LerpHalves(strip.r.from, strip.r.to, f);
    }
    TiledHalf(polys, strip, FirstHalf(strip), a, 0.0);
    TiledHalf(Tiled(polys, FirstHalf(strip), a), strip, SecondHalf(strip), b, 1.0);
    TiledConcat(polys, strip, Scaled(a, 0.0), Scaled(b, 1.0));
  }

  // ---------------------------------------------------------------- chains

  predicate Touch(a: Poly, b: Poly) { b.p1 == a.p2 && b.p4 == a.p3 }

  /** From position k on, every polygon starts where the one before it ends. */
  predicate Chain(polys: seq<Poly>, k: nat) {
    forall i :: k < i < |polys| ==> Touch(polys[i - 1], polys[i])
  }

  predicate Numbered(polys: seq<Poly>) { forall i :: 0 <= i < |polys| ==> polys[i].polyId == i }

  /** An interior tile lies on both boundary curves and carries the way-points of its edge. */
  ghost predicate InteriorTile(p: Poly, strip: Strip, f: real) {
    && p.startWay == strip.from && p.endWay == strip.to && !p.containsWay
    && p.p2 == strip.l.curve(Lerp(strip.l.from, strip.l.to, f))
    && p.p3 == strip.r.curve(Lerp(strip.r.from, strip.r.to, f))
  }

  lemma {:induction false} TiledChain(polys: seq<Poly>, strip: Strip, fs: seq<real>)
    requires polys != []
    ensures var r := Tiled(polys, strip, fs);
      && r[..|polys|] == polys && Chain(r, |polys| - 1)
      && (Numbered(polys) ==> Numbered(r))
      && forall i :: 0 <= i < |fs| ==> InteriorTile(r[|polys| + i], strip, fs[i])
  {
    if fs != [] {
      TiledChain(polys, strip, fs[..|fs| - 1]);
    }
  }

  // ---------------------------------------------------------------- edges and lanes

  function Last(polys: seq<Poly>): Poly requires polys != [] { polys[|polys| - 1] }

  function WayPoly(g: Geometry, id: ElementId, t: real): Poly {
    g.wayPoly(id, t).(startWay := id, endWay := id, containsWay := true)
  }

  /** The list with a polygon around the first way-point, unless the last edge ended there. */
  function Begun(g: Geometry, polys: seq<Poly>, w1: ElementId, t1: real): (r: seq<Poly>)
    ensures r != [] && Last(r).endWay == w1
  {
    if polys == [] || Last(polys).endWay != w1 then polys + [WayPoly(g, w1, t1).(polyId := |polys|)] else polys
  }

  function EdgeCuts(g: Geometry, c: Curve, m1: MapXY, m2: MapXY, a: real, b: real): seq<real> {
    Scaled(Cuts(g, c, m1, Mid(m1, m2), a, Half(a, b)), 0.0) + Scaled(Cuts(g, c, Mid(m1, m2), m2, Half(a, b), b), 1.0)
  }

  /** The polygons between two way-point polygons. */
  function Filled(g: Geometry, polys: seq<Poly>, poly2: Poly, c: Curve, w1: ElementId, w2: ElementId, a: real, b: real): (r: seq<Poly>)
    requires polys != []
    ensures |r| >= |polys|
  {
    var poly1 := Last(polys);
    var m1, m2 := Mid(poly1.p2, poly1.p3), Mid(poly2.p1, poly2.p4);
    if b - a > FLOAT_VALUE && g.distance(m1, m2) > FLOAT_VALUE then
      Tiled(polys, Strip(g.left(poly1, poly2), g.right(poly1, poly2), w1, w2), EdgeCuts(g, c, m1, m2, a, b))
    else polys
  }

  /** Make the last polygon touch the way-point polygon, then append that. */
  function Closed(polys: seq<Poly>, poly2: Poly): seq<Poly>
    requires polys != []
  {
    polys[|polys| - 1 := Last(polys).(p2 := poly2.p1, p3 := poly2.p4)] + [poly2.(polyId := |polys|)]
  }

  /** The list after a top-level lane edge from w1 at t1 to w2 at t2. */
  function EdgeTiled(g: Geometry, polys: seq<Poly>, c: Curve, w1: ElementId, w2: ElementId, t1: real, t2: real): seq<Poly> {
    if t2 <= t1 then polys
    else
      var poly2 := WayPoly(g, w2, t2);
      Closed(Filled(g, Begun(g, polys, w1, t1), poly2, c, w1, w2, t1 + WAY_POLY_SIZE, t2 - WAY_POLY_SIZE), poly2)
  }

  predicate InteriorOf(p: Poly, w1: ElementId, w2: ElementId) {
    p.startWay == w1 && p.endWay == w2 && !p.containsWay
  }

  /** What an edge adds behind the polygon of its first way-point, at position k. */
  ghost predicate EdgeChain(polys: seq<Poly>, r: seq<Poly>, k: nat, w1: ElementId, w2: ElementId) {
    && k < |polys| + 1 && k + 1 < |r|
    && r[..k] == polys[..k]
    && Chain(r, k)
    && r[k].endWay == w1
    && Last(r).startWay == w2 && Last(r).endWay == w2 && Last(r).containsWay
    && forall i :: k < i < |r| - 1 ==> InteriorOf(r[i], w1, w2)
  }

  lemma FilledChain(g: Geometry, polys: seq<Poly>, poly2: Poly, c: Curve, w1: ElementId, w2: ElementId, a: real, b: real)
    requires polys != []
    ensures Fills(polys, Filled(g, polys, poly2, c, w1, w2, a, b), w1, w2)
  {
    var poly1 := Last(polys);
    var m1, m2 := Mid(poly1.p2, poly1.p3), Mid(poly2.p1, poly2.p4);
    var strip, cuts := Strip(g.left(poly1, poly2), g.right(poly1, poly2), w1, w2), EdgeCuts(g, c, m1, m2, a, b);
    TiledChain(polys, strip, cuts);
    var t := Tiled(polys, strip, cuts);
    forall i | |polys| <= i < |t| ensures InteriorOf(t[i], w1, w2) {
      assert InteriorTile(t[|polys| + (i - |polys|)], strip, cuts[i - |polys|]);
    }
  }

  lemma ClosedChain(polys: seq<Poly>, poly2: Poly, j: nat)
    requires polys != [] && j < |polys| && Chain(polys, j)
    ensures Chain(Closed(polys, poly2), j)
    ensures Numbered(polys) ==> Numbered(Closed(polys, poly2))
  {
    var r := Closed(polys, poly2);
    forall i | j < i < |r| ensures Touch(r[i - 1], r[i]) {
      if i < |polys| { assert Touch(polys[i - 1], polys[i]); }
    }
  }

  /** What filling in adds behind the list start. */
  ghost predicate Fills(start: seq<Poly>, filled: seq<Poly>, w1: ElementId, w2: ElementId) {
    && start != [] && |start| <= |filled| && filled[..|start|] == start && Chain(filled, |start| - 1)
    && (Numbered(start) ==> Numbered(filled))
    && forall i :: |start| <= i < |filled| ==> InteriorOf(filled[i], w1, w2)
  }

  lemma ClosingMakesChain(polys: seq<Poly>, start: seq<Poly>, filled: seq<Poly>, poly2: Poly, w1: ElementId, w2: ElementId)
    requires Fills(start, filled, w1, w2) && Last(start).endWay == w1
    requires start == polys || (start[..|start| - 1] == polys && |start| == |polys| + 1)
    requires poly2.startWay == poly2.endWay == w2 && poly2.containsWay
    ensures EdgeChain(polys, Closed(filled, poly2), |start| - 1, w1, w2)
    ensures Numbered(start) ==> Numbered(Closed(filled, poly2))
  {
    var k := |start| - 1;
    ClosedChain(filled, poly2, k);
    var r := Closed(filled, poly2);
    assert start[..k] == polys[..k];
    assert r[..k] == filled[..k] == filled[..|start|][..k];
    assert filled[k] == filled[..|start|][k];
  }

  lemma BegunStarts(g: Geometry, polys: seq<Poly>, w1: ElementId, t1: real)
    ensures var start := Begun(g, polys, w1, t1);
      && (start == polys || (start[..|start| - 1] == polys && |start| == |polys| + 1))
      && (Numbered(polys) ==> Numbered(start))
  {
    var start := Begun(g, polys, w1, t1);
    if start != polys {
      assert start[..|polys|] == polys;
      assert start[|polys|].polyId == |polys|;
    }
  }

  /** A top-level edge appends an unbroken, correctly numbered chain with the edge's identifiers. */
  lemma EdgeIsChain(g: Geometry, polys: seq<Poly>, c: Curve, w1: ElementId, w2: ElementId, t1: real, t2: real)
    requires t1 < t2
    ensures var r, k := EdgeTiled(g, polys, c, w1, w2, t1, t2), |Begun(g, polys, w1, t1)| - 1;
      EdgeChain(polys, r, k, w1, w2) && (Numbered(polys) ==> Numbered(r))
  {
    var start, poly2 := Begun(g, polys, w1, t1), WayPoly(g, w2, t2);
    BegunStarts(g, polys, w1, t1);
    FilledChain(g, start, poly2, c, w1, w2, t1 + WAY_POLY_SIZE, t2 - WAY_POLY_SIZE);
    var filled := Filled(g, start, poly2, c, w1, w2, t1 + WAY_POLY_SIZE, t2 - WAY_POLY_SIZE);
    ClosingMakesChain(polys, start, filled, poly2, w1, w2);
  }

  lemma ClosingContinues(polys: seq<Poly>, filled: seq<Poly>, poly2: Poly, w1: ElementId, w2: ElementId, j: nat)
    requires j < |polys| && Chain(polys, j) && Fills(polys, filled, w1, w2)
    ensures Chain(Closed(filled, poly2), j)
  {
    forall i | j < i < |filled| ensures Touch(filled[i - 1], filled[i]) {
      if i < |polys| {
        assert filled[i] == filled[..|polys|][i] && filled[i - 1] == filled[..|polys|][i - 1];
      }
    }
    ClosedChain(filled, poly2, j);
  }

  /** When the edge continues the last one, a chain from further back continues through it. */
  lemma EdgeContinues(g: Geometry, polys: seq<Poly>, c: Curve, w1: ElementId, w2: ElementId, t1: real, t2: real, j: nat)
    requires t1 < t2 && j < |polys| && Chain(polys, j) && Last(polys).endWay == w1
    ensures Chain(EdgeTiled(g, polys, c, w1, w2, t1, t2), j)
  {
    var poly2 := WayPoly(g, w2, t2);
    FilledChain(g, polys, poly2, c, w1, w2, t1 + WAY_POLY_SIZE, t2 - WAY_POLY_SIZE);
    var filled := Filled(g, polys, poly2, c, w1, w2, t1 + WAY_POLY_SIZE, t2 - WAY_POLY_SIZE);
    ClosingContinues(polys, filled, poly2, w1, w2, j);
  }

  /** A way-point of a lane and its curve parameter. */
  datatype Knot = Knot(id: ElementId, time: real)

  /** The edges of a lane, one after the other. */
  function LaneTiled(g: Geometry, polys: seq<Poly>, c: Curve, lane: seq<Knot>): seq<Poly> {
    if |lane| < 2 then polys
    else
      var a, b := lane[|lane| - 2], lane[|lane| - 1];
      EdgeTiled(g, LaneTiled(g, polys, c, lane[..|lane| - 1]), c, a.id, b.id, a.time, b.time)
  }

  lemma LaneGrows(g: Geometry, polys: seq<Poly>, c: Curve, lane: seq<Knot>, i: nat)
    requires 0 < i < |lane|
    ensures LaneTiled(g, polys, c, lane[..i + 1]) ==
      EdgeTiled(g, LaneTiled(g, polys, c, lane[..i]), c, lane[i - 1].id, lane[i].id, lane[i - 1].time, lane[i].time)
  {
    assert lane[..i + 1][..i] == lane[..i];
  }

  predicate Increasing(lane: seq<Knot>) { forall i :: 0 < i < |lane| ==> lane[i - 1].time < lane[i].time }

  /** A whole lane is one unbroken chain from the polygon of its first way-point to that of its last. */
  lemma {:induction false} LaneIsChain(g: Geometry, polys: seq<Poly>, c: Curve, lane: seq<Knot>)
    requires |lane| >= 2 && Increasing(lane)
    ensures var r, k := LaneTiled(g, polys, c, lane), |Begun(g, polys, lane[0].id, lane[0].time)| - 1;
      && k + 1 < |r| && Chain(r, k) && (Numbered(polys) ==> Numbered(r))
      && Last(r).endWay == lane[|lane| - 1].id
  {
    var prior, a, b := lane[..|lane| - 1], lane[|lane| - 2], lane[|lane| - 1];
    var before := LaneTiled(g, polys, c, prior);
    if |lane| > 2 {
      LaneIsChain(g, polys, c, prior);
      EdgeContinues(g, before, c, a.id, b.id, a.time, b.time, |Begun(g, polys, lane[0].id, lane[0].time)| - 1);
    }
    EdgeIsChain(g, before, c, a.id, b.id, a.time, b.time);
  }

  // ---------------------------------------------------------------- transitions between lanes

  /** The cuts of everything between two way-point polygons leave no gap either. */
  lemma EdgeCutsPartition(g: Geometry, c: Curve, m1: MapXY, m2: MapXY, a: real, b: real)
    requires a < b
    ensures Partition(EdgeCuts(g, c, m1, m2, a, b))
    ensures Cuts(g, c, m1, Mid(m1, m2), a, Half(a, b)) != []
  {
    CutsPartition(g, c, m1, Mid(m1, m2), a, Half(a, b));
    CutsPartition(g, c, Mid(m1, m2), m2, Half(a, b), b);
    JoinPartitions(Cuts(g, c, m1, Mid(m1, m2), a, Half(a, b)), Cuts(g, c, Mid(m1, m2), m2, Half(a, b), b));
  }

  predicate IsWayPoly(p: Poly, w: ElementId) { p.containsWay && p.startWay == w }

  predicate FarApart(g: Geometry, poly1: Poly, poly2: Poly, a: real, b: real) {
    b - a > FLOAT_VALUE && g.distance(Mid(poly1.p2, poly1.p3), Mid(poly2.p1, poly2.p4)) > FLOAT_VALUE
  }

  /** Let the polygon at position k start where poly1 ends. */
  function Attached(polys: seq<Poly>, k: nat, poly1: Poly): seq<Poly>
    requires k < |polys|
  {
    polys[k := polys[k].(p1 := poly1.p2, p4 := poly1.p3)]
  }

  /** Let the last polygon end where poly2 starts. */
  function Ended(polys: seq<Poly>, poly2: Poly): seq<Poly>
    requires polys != []
  {
    polys[|polys| - 1 := Last(polys).(p2 := poly2.p1, p3 := poly2.p4)]
  }

  function TransitionStrip(g: Geometry, poly1: Poly, poly2: Poly, w1: ElementId, w2: ElementId): Strip {
    Strip(g.left(poly1, poly2), g.right(poly1, poly2), w1, w2)
  }

  /** The list after a transition: tiles from poly1 to poly2, both of which stay where they are. */
  function TransitionTiled(
      g: Geometry, polys: seq<Poly>, c: Curve, poly1: Poly, poly2: Poly, w1: ElementId, w2: ElementId, a: real, b: real): seq<Poly>
    requires polys != [] && FarApart(g, poly1, poly2, a, b)
  {
    var m1, m2 := Mid(poly1.p2, poly1.p3), Mid(poly2.p1, poly2.p4);
    EdgeCutsPartition(g, c, m1, m2, a, b);
    var tiled := Tiled(polys, TransitionStrip(g, poly1, poly2, w1, w2), EdgeCuts(g, c, m1, m2, a, b));
    Ended(Attached(tiled, |polys|, poly1), poly2)
  }

  /**
   * The positions that the search for the polygons of two way-points ends with, -1 where there is
   * none: it goes on, and forgets what it found, until it has seen both.
   */
  function Places(polys: seq<Poly>, w1: ElementId, w2: ElementId): (r: (int, int))
    ensures -1 <= r.0 < |polys| && -1 <= r.1 < |polys|
  {
    if polys == [] then (-1, -1)
    else
      var n, r := |polys| - 1, Places(polys[..|polys| - 1], w1, w2);
      if r.0 >= 0 && r.1 >= 0 then r
      else if IsWayPoly(polys[n], w1) then (n, r.1)
      else if IsWayPoly(polys[n], w2) then (r.0, n)
      else r
  }

  /** Position i holds the last polygon around the way-point among the first n; -1 when there is none. */
  ghost predicate LastWay(polys: seq<Poly>, w: ElementId, n: nat, i: int)
    requires n <= |polys|
  {
    -1 <= i < n && (i >= 0 ==> IsWayPoly(polys[i], w)) && forall k :: 0 <= k < n && IsWayPoly(polys[k], w) ==> k <= i
  }

  /**
   * What the search means. Where only one of the way-points has polygons, it ends with the last of
   * them. Otherwise the one seen later has its first polygon, and the other its last before that. A
   * second way-point that is the first one again is never found.
   */
  lemma {:induction false} PlacesFound(polys: seq<Poly>, w1: ElementId, w2: ElementId)
    ensures var (i, j) := Places(polys, w1, w2);
      if w1 == w2 then LastWay(polys, w1, |polys|, i) && j == -1
      else if i < 0 || j < 0 then LastWay(polys, w1, |polys|, i) && LastWay(polys, w2, |polys|, j)
      else if i < j then LastWay(polys, w1, j, i) && LastWay(polys, w2, j, -1) && IsWayPoly(polys[j], w2)
      else LastWay(polys, w2, i, j) && LastWay(polys, w1, i, -1) && IsWayPoly(polys[i], w1)
  {
    if polys != [] {
      var n, prior := |polys| - 1, polys[..|polys| - 1];
      PlacesFound(prior, w1, w2);
      assert forall k :: 0 <= k < n ==> prior[k] == polys[k];
    }
  }

  /** The listed polygon around a way-point, or one made up for it. */
  function WayPolyAt(g: Geometry, polys: seq<Poly>, i: int, w: ElementId, t: real): Poly
    requires -1 <= i < |polys|
  {
    if i >= 0 then polys[i] else WayPoly(g, w, t)
  }

  /** Polygon i moved to end where polygon j starts. */
  function Joined(polys: seq<Poly>, i: nat, j: nat): seq<Poly>
    requires i < |polys| && j < |polys|
  {
    polys[i := polys[i].(p2 := polys[j].p1, p3 := polys[j].p4)]
  }

  predicate Far(g: Geometry, polys: seq<Poly>, i: int, j: int, w1: ElementId, w2: ElementId, t1: real, t2: real)
    requires -1 <= i < |polys| && -1 <= j < |polys|
  {
    FarApart(g, WayPolyAt(g, polys, i, w1, t1), WayPolyAt(g, polys, j, w2, t2), t1 + WAY_POLY_SIZE, t2 - WAY_POLY_SIZE)
  }

  /**
   * The list after a transition whose way-point polygons stand at i and j: tiles between them if
   * they are far apart; otherwise the first is joined to the second, exactly if both are listed.
   */
  function Transition(
      g: Geometry, polys: seq<Poly>, c: Curve, i: int, j: int, w1: ElementId, w2: ElementId, t1: real, t2: real): seq<Poly>
    requires polys != [] && -1 <= i < |polys| && -1 <= j < |polys|
  {
    if Far(g, polys, i, j, w1, w2, t1, t2) then
      TransitionTiled(g, polys, c, WayPolyAt(g, polys, i, w1, t1), WayPolyAt(g, polys, j, w2, t2), w1, w2,
                      t1 + WAY_POLY_SIZE, t2 - WAY_POLY_SIZE)
    else if i >= 0 && j >= 0 then Joined(polys, i, j)
    else polys
  }

  lemma TransitionIsTiled(
      g: Geometry, polys: seq<Poly>, c: Curve, i: int, j: int, w1: ElementId, w2: ElementId, t1: real, t2: real)
    requires polys != [] && -1 <= i < |polys| && -1 <= j < |polys| && Far(g, polys, i, j, w1, w2, t1, t2)
    ensures Transition(g, polys, c, i, j, w1, w2, t1, t2) ==
      TransitionTiled(g, polys, c, WayPolyAt(g, polys, i, w1, t1), WayPolyAt(g, polys, j, w2, t2), w1, w2,
                      t1 + WAY_POLY_SIZE, t2 - WAY_POLY_SIZE)
  {}

  lemma TransitionIsJoin(
      g: Geometry, polys: seq<Poly>, c: Curve, i: int, j: int, w1: ElementId, w2: ElementId, t1: real, t2: real)
    requires polys != [] && -1 <= i < |polys| && -1 <= j < |polys| && !Far(g, polys, i, j, w1, w2, t1, t2)
    ensures Transition(g, polys, c, i, j, w1, w2, t1, t2) == if i >= 0 && j >= 0 then Joined(polys, i, j) else polys
  {}

  predicate SameFront(p: Poly, q: Poly) { p.p2 == q.p1 && p.p3 == q.p4 }

  /** From position k on, up to m, every polygon starts where the one before it ends. */
  predicate Segment(polys: seq<Poly>, k: nat, m: nat) {
    m <= |polys| && forall i :: k < i < m ==> Touch(polys[i - 1], polys[i])
  }

  lemma JoinKeepsSegment(polys: seq<Poly>, i: nat, j: nat, k: nat, m: nat)
    requires i < |polys| && j < |polys| && Segment(polys, k, m)
    ensures Segment(Joined(polys, i, j), k, m) <==> i < k || i + 1 >= m || SameFront(polys[i], polys[j])
  {
    var r := Joined(polys, i, j);
    if k <= i < m - 1 {
      assert Touch(polys[i + 1 - 1], polys[i + 1]);
      assert Segment(r, k, m) ==> Touch(r[i + 1 - 1], r[i + 1]);
    }
    if i < k || i + 1 >= m || SameFront(polys[i], polys[j]) {
      forall n | k < n < m ensures Touch(r[n - 1], r[n]) {
        assert Touch(polys[n - 1], polys[n]);
      }
    }
  }

  /** A transition moves the front of a polygon that the next one of the segment touches. */
  predicate TearsAt(
      g: Geometry, polys: seq<Poly>, i: int, j: int, w1: ElementId, w2: ElementId, t1: real, t2: real, k: nat, m: nat)
    requires -1 <= i < |polys| && -1 <= j < |polys|
  {
    !Far(g, polys, i, j, w1, w2, t1, t2) && i >= 0 && j >= 0 && k <= i < m - 1 && !SameFront(polys[i], polys[j])
  }

  /**
   * A chain anywhere in the list survives a transition exactly when its way-points are far apart,
   * or one of them has no polygon, or the first polygon is not followed by another one of the
   * chain, or it already ends where the second starts.
   */
  lemma TransitionKeepsChain(
      g: Geometry, polys: seq<Poly>, c: Curve, i: int, j: int, w1: ElementId, w2: ElementId, t1: real, t2: real,
      k: nat, m: nat)
    requires polys != [] && -1 <= i < |polys| && -1 <= j < |polys| && Segment(polys, k, m)
    ensures Segment(Transition(g, polys, c, i, j, w1, w2, t1, t2), k, m) <==>
      || Far(g, polys, i, j, w1, w2, t1, t2) || i < 0 || j < 0
      || i < k || i >= m - 1 || SameFront(polys[i], polys[j])
  {
    if Far(g, polys, i, j, w1, w2, t1, t2) {
      FarKeepsList(g, polys, c, i, j, w1, w2, t1, t2);
      LongerSegment(polys, Transition(g, polys, c, i, j, w1, w2, t1, t2), k, m);
    } else {
      TransitionIsJoin(g, polys, c, i, j, w1, w2, t1, t2);
      if i >= 0 && j >= 0 { JoinKeepsSegment(polys, i, j, k, m); }
    }
  }

  lemma LongerSegment(polys: seq<Poly>, r: seq<Poly>, k: nat, m: nat)
    requires |polys| <= |r| && r[..|polys|] == polys && Segment(polys, k, m)
    ensures Segment(r, k, m)
  {
    forall i | k < i < m ensures Touch(r[i - 1], r[i]) {
      assert r[i] == r[..|polys|][i] && r[i - 1] == r[..|polys|][i - 1];
    }
  }

  lemma FarKeepsList(
      g: Geometry, polys: seq<Poly>, c: Curve, i: int, j: int, w1: ElementId, w2: ElementId, t1: real, t2: real)
    requires polys != [] && -1 <= i < |polys| && -1 <= j < |polys| && Far(g, polys, i, j, w1, w2, t1, t2)
    ensures var r := Transition(g, polys, c, i, j, w1, w2, t1, t2); |r| >= |polys| && r[..|polys|] == polys
  {
    TransitionIsTiled(g, polys, c, i, j, w1, w2, t1, t2);
    TransitionBridges(g, polys, c, WayPolyAt(g, polys, i, w1, t1), WayPolyAt(g, polys, j, w2, t2), w1, w2,
                      t1 + WAY_POLY_SIZE, t2 - WAY_POLY_SIZE);
  }

  /** The polygons from position k on lead from poly1 to poly2 without a gap. */
  ghost predicate Bridges(polys: seq<Poly>, k: nat, poly1: Poly, poly2: Poly) {
    k < |polys| && Touch(poly1, polys[k]) && Chain(polys, k) && Touch(Last(polys), poly2)
  }

  lemma EndedBridges(polys: seq<Poly>, k: nat, poly1: Poly, poly2: Poly)
    requires k + 1 < |polys| && Chain(polys, k)
    ensures Bridges(Ended(Attached(polys, k, poly1), poly2), k, poly1, poly2)
  {
    var r := Ended(Attached(polys, k, poly1), poly2);
    forall i | k < i < |r| ensures Touch(r[i - 1], r[i]) {
      assert Touch(polys[i - 1], polys[i]);
    }
  }

  /**
   * A transition leaves all earlier polygons alone and bridges the gap between the polygons of its
   * two way-points with numbered polygons that carry both identifiers.
   */
  lemma TransitionBridges(
      g: Geometry, polys: seq<Poly>, c: Curve, poly1: Poly, poly2: Poly, w1: ElementId, w2: ElementId, a: real, b: real)
    requires polys != [] && FarApart(g, poly1, poly2, a, b)
    ensures var r := TransitionTiled(g, polys, c, poly1, poly2, w1, w2, a, b);
      && |r| > |polys| && r[..|polys|] == polys && Bridges(r, |polys|, poly1, poly2)
      && (Numbered(polys) ==> Numbered(r))
      && forall i :: |polys| <= i < |r| ==> InteriorOf(r[i], w1, w2)
  {
    var m1, m2 := Mid(poly1.p2, poly1.p3), Mid(poly2.p1, poly2.p4);
    var strip, cuts := TransitionStrip(g, poly1, poly2, w1, w2), EdgeCuts(g, c, m1, m2, a, b);
    EdgeCutsPartition(g, c, m1, m2, a, b);
    CutsPartition(g, c, Mid(m1, m2), m2, Half(a, b), b);
    TiledChain(polys, strip, cuts);
    var t, r := Tiled(polys, strip, cuts), TransitionTiled(g, polys, c, poly1, poly2, w1, w2, a, b);
    EndedBridges(t, |polys|, poly1, poly2);
    assert r[..|polys|] == t[..|polys|];
    forall i | |polys| <= i < |r| ensures InteriorOf(r[i], w1, w2) {
      assert InteriorTile(t[|polys| + (i - |polys|)], strip, cuts[i - |polys|]);
    }
  }

  /** Once both are found the rest of the list does not matter. */
  lemma {:induction false} PlacesKept(polys: seq<Poly>, w1: ElementId, w2: ElementId, i: nat)
    requires i <= |polys|
    requires i == |polys| || (Places(polys[..i], w1, w2).0 >= 0 && Places(polys[..i], w1, w2).1 >= 0)
    ensures Places(polys, w1, w2) == Places(polys[..i], w1, w2)
    decreases |polys| - i
  {
    if i == |polys| {
      assert polys[..i] == polys;
    } else {
      assert polys[..i + 1][..i] == polys[..i];
      PlacesKept(polys, w1, w2, i + 1);
    }
  }

  /** The list after a transition between the polygons that the search finds. */
  function Linked(g: Geometry, polys: seq<Poly>, c: Curve, w1: ElementId, w2: ElementId, t1: real, t2: real): seq<Poly>
    requires polys != []
  {
    var (i, j) := Places(polys, w1, w2);
    Transition(g, polys, c, i, j, w1, w2, t1, t2)
  }

  // ---------------------------------------------------------------- the polygon builder

  class Builder {
    const g: Geometry
    var allPolys: seq<Poly>
    var polyIdCounter: nat

    constructor (geometry: Geometry, maxPolySize: real)
      ensures Valid() && allPolys == [] && g == geometry.(close := CloseEnough(maxPolySize))
    {
      g := geometry.(close := CloseEnough(maxPolySize));
      allPolys, polyIdCounter := [], 0;
    }

    ghost predicate Valid() reads this { polyIdCounter == |allPolys| }

    /** The recursive calls: halve the piece until it fits one polygon. */
    method MakePiece(w1: WayPt, w2: WayPt, t1: real, t2: real, c: Curve, l: Side, r: Side)
      requires Valid() && allPolys != []
      modifies this
      ensures Valid()
      ensures allPolys == Tiled(old(allPolys), Strip(l, r, w1.id, w2.id), Cuts(g, c, w1.xy, w2.xy, t1, t2))
      decreases Depth(t1, t2)
    {
      if t2 <= t1 { return; }
      ghost var strip, was := Strip(l, r, w1.id, w2.id), allPolys;
      if Fits(g, w1.xy, w2.xy, t1, t2) {
        var back := allPolys[polyIdCounter - 1];
        assert Lerp(l.from, l.to, 1.0) == l.to && Lerp(r.from, r.to, 1.0) == r.to;
        assert [1.0][..0] == [];
        assert Tiled(was, strip, [1.0]) == was + [Tile(back, strip, 1.0, |was|)];
        allPolys := allPolys + [Poly(back.p2, l.curve(l.to), r.curve(r.to), back.p3, polyIdCounter, w1.id, w2.id, false)];
        polyIdCounter := polyIdCounter + 1;
      } else {
        HalvingDescends(t1, t2);
        var a, b := c(t1), c(t2);
        var m, tm, lm, rm := Mid(a, b), Half(t1, t2), Half(l.from, l.to), Half(r.from, r.to);
        MakePiece(WayPt(w1.id, a), WayPt(w2.id, m), t1, tm, c, l.(to := lm), r.(to := rm));
        MakePiece(WayPt(w1.id, m), WayPt(w2.id, b), tm, t2, c, l.(from := lm), r.(from := rm));
        TiledHalves(was, strip, Cuts(g, c, a, m, t1, tm), Cuts(g, c, m, b, tm, t2));
      }
    }

    /** A top-level lane edge. */
    method MakeLaneEdge(w1: ElementId, w2: ElementId, t1: real, t2: real, c: Curve)
      requires Valid()
      modifies this
      ensures Valid() && allPolys == EdgeTiled(g, old(allPolys), c, w1, w2, t1, t2)
    {
      if t2 <= t1 { return; }
      BeginEdge(w1, t1);
      FinishEdge(WayPoly(g, w2, t2), w1, w2, t1 + WAY_POLY_SIZE, t2 - WAY_POLY_SIZE, c);
    }

    method FinishEdge(poly2: Poly, w1: ElementId, w2: ElementId, a: real, b: real, c: Curve)
      requires Valid() && allPolys != []
      modifies this
      ensures Valid() && allPolys == Closed(Filled(g, old(allPolys), poly2, c, w1, w2, a, b), poly2)
    {
      FillEdge(poly2, w1, w2, a, b, c);
      CloseEdge(poly2);
    }

    method CloseEdge(poly2: Poly)
      requires Valid() && allPolys != []
      modifies this
      ensures Valid() && allPolys == Closed(old(allPolys), poly2)
    {
      var last := allPolys[polyIdCounter - 1];
      allPolys := allPolys[polyIdCounter - 1 := last.(p2 := poly2.p1, p3 := poly2.p4)];
      allPolys := allPolys + [poly2.(polyId := polyIdCounter)];
      polyIdCounter := polyIdCounter + 1;
    }

    method BeginEdge(w1: ElementId, t1: real)
      requires Valid()
      modifies this
      ensures Valid() && allPolys == Begun(g, old(allPolys), w1, t1)
    {
      if polyIdCounter == 0 || allPolys[polyIdCounter - 1].endWay != w1 {
        allPolys := allPolys + [WayPoly(g, w1, t1).(polyId := polyIdCounter)];
        polyIdCounter := polyIdCounter + 1;
      }
    }

    method FillEdge(poly2: Poly, w1: ElementId, w2: ElementId, a: real, b: real, c: Curve)
      requires Valid() && allPolys != []
      modifies this
      ensures Valid() && allPolys == Filled(g, old(allPolys), poly2, c, w1, w2, a, b)
    {
      ghost var begun := allPolys;
      var poly1 := allPolys[polyIdCounter - 1];
      var m1, m2 := Mid(poly1.p2, poly1.p3), Mid(poly2.p1, poly2.p4);
      if b - a > FLOAT_VALUE && g.distance(m1, m2) > FLOAT_VALUE {
        var l, r, m, tm := g.left(poly1, poly2), g.right(poly1, poly2), Mid(m1, m2), Half(a, b);
        var lm, rm := Half(l.from, l.to), Half(r.from, r.to);
        MakePiece(WayPt(w1, m1), WayPt(w2, m), a, tm, c, l.(to := lm), r.(to := rm));
        MakePiece(WayPt(w1, m), WayPt(w2, m2), tm, b, c, l.(from := lm), r.(from := rm));
        TiledHalves(begun, Strip(l, r, w1, w2), Cuts(g, c, m1, m, a, tm), Cuts(g, c, m, m2, tm, b));
      }
    }

    /** All edges of a lane whose curve has already been fitted. */
    method MakeLane(lane: seq<Knot>, c: Curve)
      requires Valid()
      modifies this
      ensures Valid() && allPolys == LaneTiled(g, old(allPolys), c, lane)
    {
      if lane == [] { return; }
      assert lane[..1] == [lane[0]];
      for i := 1 to |lane|
        invariant Valid() && allPolys == LaneTiled(g, old(allPolys), c, lane[..i])
      {
        LaneGrows(g, old(allPolys), c, lane, i);
        MakeLaneEdge(lane[i - 1].id, lane[i].id, lane[i - 1].time, lane[i].time, c);
      }
      assert lane[..|lane|] == lane;
    }

    /** The polygons around two way-points; the search ends once both are found. */
    method FindWayPolys(w1: ElementId, w2: ElementId) returns (index1: int, index2: int)
      ensures (index1, index2) == Places(allPolys, w1, w2)
    {
      index1, index2 := -1, -1;
      var i := 0;
      while i < |allPolys| && (index1 < 0 || index2 < 0)
        invariant 0 <= i <= |allPolys| && (index1, index2) == Places(allPolys[..i], w1, w2)
      {
        assert allPolys[..i + 1][..i] == allPolys[..i];
        if allPolys[i].containsWay {
          if allPolys[i].startWay == w1 { index1 := i; }
          else if allPolys[i].startWay == w2 { index2 := i; }
        }
        i := i + 1;
      }
      PlacesKept(allPolys, w1, w2, i);
    }

    /**
     * A transition between the polygons of two way-points, which are made up only if none is
     * listed. Listed ones too close for it are joined, by moving the front of the first polygon.
     */
    method MakeTransition(w1: ElementId, w2: ElementId, t1: real, t2: real, c: Curve)
      requires Valid() && allPolys != []
      modifies this
      ensures Valid()
      ensures allPolys == Linked(g, old(allPolys), c, w1, w2, t1, t2)
    {
      var i, j := FindWayPolys(w1, w2);
      ApplyTransition(i, j, w1, w2, t1, t2, c);
    }

    method ApplyTransition(i: int, j: int, w1: ElementId, w2: ElementId, t1: real, t2: real, c: Curve)
      requires Valid() && allPolys != [] && -1 <= i < |allPolys| && -1 <= j < |allPolys|
      modifies this
      ensures Valid() && allPolys == Transition(g, old(allPolys), c, i, j, w1, w2, t1, t2)
    {
      if Far(g, allPolys, i, j, w1, w2, t1, t2) {
        TileBetween(i, j, w1, w2, t1, t2, c);
      } else {
        JoinListed(i, j, w1, w2, t1, t2, c);
      }
    }

    method TileBetween(i: int, j: int, w1: ElementId, w2: ElementId, t1: real, t2: real, c: Curve)
      requires Valid() && allPolys != [] && -1 <= i < |allPolys| && -1 <= j < |allPolys|
      requires Far(g, allPolys, i, j, w1, w2, t1, t2)
      modifies this
      ensures Valid() && allPolys == Transition(g, old(allPolys), c, i, j, w1, w2, t1, t2)
    {
      TransitionIsTiled(g, allPolys, c, i, j, w1, w2, t1, t2);
      TileTransition(WayPolyAt(g, allPolys, i, w1, t1), WayPolyAt(g, allPolys, j, w2, t2), w1, w2,
                     t1 + WAY_POLY_SIZE, t2 - WAY_POLY_SIZE, c);
    }

    method JoinListed(i: int, j: int, w1: ElementId, w2: ElementId, t1: real, t2: real, ghost c: Curve)
      requires Valid() && allPolys != [] && -1 <= i < |allPolys| && -1 <= j < |allPolys|
      requires !Far(g, allPolys, i, j, w1, w2, t1, t2)
      modifies this
      ensures Valid() && allPolys == Transition(g, old(allPolys), c, i, j, w1, w2, t1, t2)
    {
      TransitionIsJoin(g, allPolys, c, i, j, w1, w2, t1, t2);
      if i >= 0 && j >= 0 {
        allPolys := allPolys[i := allPolys[i].(p2 := allPolys[j].p1, p3 := allPolys[j].p4)];
      }
    }

    method TileTransition(poly1: Poly, poly2: Poly, w1: ElementId, w2: ElementId, a: real, b: real, c: Curve)
      requires Valid() && allPolys != [] && FarApart(g, poly1, poly2, a, b)
      modifies this
      ensures Valid() && allPolys == TransitionTiled(g, old(allPolys), c, poly1, poly2, w1, w2, a, b)
    {
      ghost var was := allPolys;
      var m1, m2 := Mid(poly1.p2, poly1.p3), Mid(poly2.p1, poly2.p4);
      var l, r, m, tm := g.left(poly1, poly2), g.right(poly1, poly2), Mid(m1, m2), Half(a, b);
      var lm, rm, next := Half(l.from, l.to), Half(r.from, r.to), polyIdCounter;
      EdgeCutsPartition(g, c, m1, m2, a, b);
      CutsPartition(g, c, m, m2, tm, b);
      MakePiece(WayPt(w1, m1), WayPt(w2, m), a, tm, c, l.(to := lm), r.(to := rm));
      ghost var half := allPolys;
      allPolys := allPolys[next := allPolys[next].(p1 := poly1.p2, p4 := poly1.p3)];
      MakePiece(WayPt(w1, m), WayPt(w2, m2), tm, b, c, l.(from := lm), r.(from := rm));
      ghost var strip, cuts := SecondHalf(Strip(l, r, w1, w2)), Cuts(g, c, m, m2, tm, b);
      TiledAttached(half, strip, cuts, next, poly1);
      TiledHalves(was, Strip(l, r, w1, w2), Cuts(g, c, m1, m, a, tm), cuts);
      allPolys := allPolys[polyIdCounter - 1 := allPolys[polyIdCounter - 1].(p2 := poly2.p1, p3 := poly2.p4)];
    }
  }

  /** Tiles only look at the front of the polygon before them, so its back may be moved first. */
  lemma {:induction false} TiledAttached(polys: seq<Poly>, strip: Strip, fs: seq<real>, k: nat, poly1: Poly)
    requires k < |polys|
    ensures Tiled(Attached(polys, k, poly1), strip, fs) == Attached(Tiled(polys, strip, fs), k, poly1)
  {
    if fs != [] {
      var prior := fs[..|fs| - 1];
      TiledAttached(polys, strip, prior, k, poly1);
    }
  }
}
