/** How long the tiles of a lane are: the halving goes far enough, and no further than it must. */
module TileLengths {
  import opened WayPoints
  import opened MapLanes

  /** The curve is parametrised by its length, and distance is that of the plane. */
  ghost predicate Measured(g: Geometry, c: Curve) {
    && (forall s, t :: s <= t ==> 0.0 <= g.distance(c(s), c(t)) <= t - s)
    && (forall p, q {:trigger Mid(p, q)} :: g.distance(p, Mid(p, q)) == g.distance(p, q) / 2.0 && g.distance(Mid(p, q), q) == g.distance(p, q) / 2.0)
  }

  /** The rule of the map: a piece of length c whose ends are e apart needs no cut. */
  predicate ShortEnough(size: real, e: real, c: real) { c * c <= size * e }

  lemma Times(x: real, y: real, z: real)
    requires x <= y && z >= 0.0
    ensures x * z <= y * z
  {}

  lemma Strictly(x: real, y: real, z: real)
    requires x < y && z > 0.0
    ensures x * z < y * z
  {
    var d := y - x;
    assert d * z > 0.0;
    assert y * z == x * z + d * z;
  }

  lemma Cancel(x: real, y: real, z: real)
    requires x * z <= y * z && z > 0.0
    ensures x <= y
  {
    if x > y { Strictly(y, x, z); }
  }

  lemma CloseIsShort(size: real, e: real, c: real)
    requires c > 0.0
    ensures CloseEnough(size)(e, c) <==> ShortEnough(size, e, c)
  {
    var q := size * e / c;
    assert q * c == size * e;
    if c <= q { Times(c, q, c); }
    if c * c <= q * c { Cancel(c, q, c); }
  }

  lemma ShortIsSmall(size: real, e: real, c: real)
    requires 0.0 <= e <= c && c > 0.0 && size >= 0.0 && ShortEnough(size, e, c)
    ensures c <= size
  {
    Times(e, c, size);
    SmallReal(size, c, c * c, e * size, c * size);
  }

  lemma SmallReal(size: real, c: real, square: real, middle: real, bound: real)
    requires c > 0.0 && square == c * c && bound == c * size && square <= middle <= bound
    ensures c <= size
  {
    Cancel(c, size, c);
  }

  // ---------------------------------------------------------------- the tiles of a piece

  /** Where tile i begins and ends on the curve, given the cuts of the piece from t1 to t2. */
  function From(fs: seq<real>, i: nat, t1: real, t2: real): real
    requires i < |fs|
  {
    Lerp(t1, t2, if i == 0 then 0.0 else fs[i - 1])
  }

  function To(fs: seq<real>, i: nat, t1: real, t2: real): real
    requires i < |fs|
  {
    Lerp(t1, t2, fs[i])
  }

  /** The interval from s' to t' has the one from s to t as its first or second half. */
  predicate Halves(s: real, t: real, s': real, t': real) {
    (s' == s && t' - t == t - s) || (t' == t && s - s' == t - s)
  }

  /** The curve comes back on itself: the piece whose half the tile is has its ends together. */
  ghost predicate Pinched(g: Geometry, c: Curve, s: real, t: real) {
    g.distance(c(s), c(t + (t - s))) < 2.0 * FLOAT_VALUE || g.distance(c(s - (t - s)), c(t)) < 2.0 * FLOAT_VALUE
  }

  /** A tile of a piece from t1 to t2 with its ends e apart is no longer than the size asked for. */
  ghost predicate ShortTile(g: Geometry, c: Curve, size: real, e: real, t1: real, t2: real, s: real, t: real) {
    t - s <= Max(size, FLOAT_VALUE) || Pinched(g, c, s, t) || (s == t1 && t == t2 && e < FLOAT_VALUE)
  }

  /** The piece that the tile is half of is half of another one, and was too long for half the distance of its ends. */
  ghost predicate NestedCut(g: Geometry, c: Curve, size: real, s: real, t: real, k: real) {
    exists s', t', s'', t'' :: Halves(s, t, s', t') && Halves(s', t', s'', t'')
      && !ShortEnough(size, g.distance(c(s''), c(t'')) / 2.0, k)
  }

  /** The piece that the tile is half of was too long for the rule: the whole piece, or one within it. */
  ghost predicate NeededCut(g: Geometry, c: Curve, size: real, e: real, t1: real, t2: real, s: real, t: real) {
    (Halves(s, t, t1, t2) && !ShortEnough(size, e, Twice(s, t))) || NestedCut(g, c, size, s, t, Twice(s, t))
  }

  function Twice(s: real, t: real): real { (t - s) + (t - s) }

  ghost predicate TileFits(g: Geometry, c: Curve, size: real, e: real, fs: seq<real>, i: nat, t1: real, t2: real)
    requires i < |fs|
  {
    && ShortTile(g, c, size, e, t1, t2, From(fs, i, t1, t2), To(fs, i, t1, t2))
    && (|fs| > 1 ==> NeededCut(g, c, size, e, t1, t2, From(fs, i, t1, t2), To(fs, i, t1, t2)))
  }

  ghost predicate TilesFit(g: Geometry, c: Curve, size: real, e: real, fs: seq<real>, t1: real, t2: real) {
    forall i: nat :: i < |fs| ==> TileFits(g, c, size, e, fs, i, t1, t2)
  }

  // ---------------------------------------------------------------- one piece

  lemma UncutFits(g: Geometry, c: Curve, size: real, w1: MapXY, w2: MapXY, t1: real, t2: real)
    requires t1 < t2 && g.close == CloseEnough(size) && size >= 0.0 && 0.0 <= g.distance(w1, w2) <= t2 - t1
    requires Fits(g, w1, w2, t1, t2)
    ensures TilesFit(g, c, size, g.distance(w1, w2), [1.0], t1, t2)
  {
    var e := g.distance(w1, w2);
    assert From([1.0], 0, t1, t2) == t1 && To([1.0], 0, t1, t2) == t2;
    assert TileFits(g, c, size, e, [1.0], 0, t1, t2) by { UncutIsShort(g, c, size, e, t1, t2, w1, w2); }
  }

  lemma UncutIsShort(g: Geometry, c: Curve, size: real, e: real, t1: real, t2: real, w1: MapXY, w2: MapXY)
    requires t1 < t2 && g.close == CloseEnough(size) && size >= 0.0 && e == g.distance(w1, w2) && 0.0 <= e <= t2 - t1
    requires Fits(g, w1, w2, t1, t2)
    ensures ShortTile(g, c, size, e, t1, t2, t1, t2)
  {
    var k := t2 - t1;
    if !NearZero(k) && !NearZero(e) {
      CloseIsShort(size, e, k);
      ShortIsSmall(size, e, k);
    }
  }

  lemma CutIsLong(g: Geometry, size: real, w1: MapXY, w2: MapXY, t1: real, t2: real)
    requires t1 < t2 && g.close == CloseEnough(size) && !Fits(g, w1, w2, t1, t2)
    ensures !ShortEnough(size, g.distance(w1, w2), t2 - t1)
  {
    CloseIsShort(size, g.distance(w1, w2), t2 - t1);
  }

  /** A tile of one half, seen from the whole piece, whose chord is twice as long as that of the half. */
  lemma LiftShort(g: Geometry, c: Curve, size: real, e: real, chord: real, a: real, b: real, t1: real, t2: real, s: real, t: real)
    requires ShortTile(g, c, size, chord / 2.0, a, b, s, t) && Halves(a, b, t1, t2) && chord == g.distance(c(t1), c(t2))
    ensures ShortTile(g, c, size, e, t1, t2, s, t)
  {
    if s == a && t == b {
      assert t1 == s ==> t2 == t + (t - s);
      assert t2 == t ==> t1 == s - (t - s);
    }
  }

  lemma LiftNeeded(g: Geometry, c: Curve, size: real, e: real, chord: real, a: real, b: real, t1: real, t2: real, s: real, t: real)
    requires NeededCut(g, c, size, chord / 2.0, a, b, s, t) && Halves(a, b, t1, t2) && chord == g.distance(c(t1), c(t2))
    ensures NeededCut(g, c, size, e, t1, t2, s, t)
  {
    if Halves(s, t, a, b) && !ShortEnough(size, chord / 2.0, Twice(s, t)) {
      assert Halves(s, t, a, b) && Halves(a, b, t1, t2);
      assert NestedCut(g, c, size, s, t, Twice(s, t));
    }
  }

  lemma HalfNeeded(g: Geometry, c: Curve, size: real, e: real, a: real, b: real, t1: real, t2: real)
    requires Halves(a, b, t1, t2) && !ShortEnough(size, e, t2 - t1)
    ensures NeededCut(g, c, size, e, t1, t2, a, b)
  {
    assert Twice(a, b) == t2 - t1;
  }

  /** Tiles of a half fit the whole piece. */
  lemma LiftTile(
      g: Geometry, c: Curve, size: real, e: real, chord: real, fs: seq<real>, i: nat, a: real, b: real, t1: real, t2: real)
    requires i < |fs| && TilesFit(g, c, size, chord / 2.0, fs, a, b) && Halves(a, b, t1, t2)
    requires chord == g.distance(c(t1), c(t2)) && !ShortEnough(size, e, t2 - t1)
    requires |fs| == 1 ==> fs[0] == 1.0
    ensures ShortTile(g, c, size, e, t1, t2, From(fs, i, a, b), To(fs, i, a, b))
    ensures NeededCut(g, c, size, e, t1, t2, From(fs, i, a, b), To(fs, i, a, b))
  {
    assert TileFits(g, c, size, chord / 2.0, fs, i, a, b);
    var s, t := From(fs, i, a, b), To(fs, i, a, b);
    LiftShort(g, c, size, e, chord, a, b, t1, t2, s, t);
    if |fs| > 1 {
      LiftNeeded(g, c, size, e, chord, a, b, t1, t2, s, t);
    } else {
      assert s == a && t == b;
      HalfNeeded(g, c, size, e, a, b, t1, t2);
    }
  }

  /** The ends of the tiles of both halves, seen from the whole. */
  lemma FirstEnds(a: seq<real>, b: seq<real>, i: nat, t1: real, t2: real)
    requires i < |a|
    ensures var fs := Scaled(a, 0.0) + Scaled(b, 1.0);
      From(fs, i, t1, t2) == From(a, i, t1, Half(t1, t2)) && To(fs, i, t1, t2) == To(a, i, t1, Half(t1, t2))
  {
    LerpHalves(t1, t2, a[i]);
    LerpHalves(t1, t2, if i == 0 then 0.0 else a[i - 1]);
  }

  lemma SecondEnds(a: seq<real>, b: seq<real>, i: nat, t1: real, t2: real)
    requires i < |b| && a != [] && a[|a| - 1] == 1.0
    ensures var fs := Scaled(a, 0.0) + Scaled(b, 1.0);
      From(fs, |a| + i, t1, t2) == From(b, i, Half(t1, t2), t2) && To(fs, |a| + i, t1, t2) == To(b, i, Half(t1, t2), t2)
  {
    LerpHalves(t1, t2, b[i]);
    LerpHalves(t1, t2, if i == 0 then 0.0 else b[i - 1]);
  }

  /** What is known of the cuts of the two halves of a piece that had to be cut holds of them together. */
  lemma JoinedFit(
      g: Geometry, c: Curve, size: real, e: real, chord: real, a: seq<real>, b: seq<real>, t1: real, t2: real)
    requires Partition(a) && Partition(b) && chord == g.distance(c(t1), c(t2)) && !ShortEnough(size, e, t2 - t1)
    requires TilesFit(g, c, size, chord / 2.0, a, t1, Half(t1, t2)) && TilesFit(g, c, size, chord / 2.0, b, Half(t1, t2), t2)
    ensures TilesFit(g, c, size, e, Scaled(a, 0.0) + Scaled(b, 1.0), t1, t2)
  {
    var fs, tm := Scaled(a, 0.0) + Scaled(b, 1.0), Half(t1, t2);
    forall i: nat | i < |fs| ensures TileFits(g, c, size, e, fs, i, t1, t2) {
      if i < |a| {
        FirstEnds(a, b, i, t1, t2);
        LiftTile(g, c, size, e, chord, a, i, t1, tm, t1, t2);
      } else {
        SecondEnds(a, b, i - |a|, t1, t2);
        LiftTile(g, c, size, e, chord, b, i - |a|, tm, t2, t1, t2);
      }
    }
  }

  /**
   * The cuts of a piece: every tile is at most as long as asked for, unless the curve comes back on
   * itself there, and every cut was needed: the piece that a tile is half of was too long.
   */
  lemma {:induction false} CutsFit(g: Geometry, c: Curve, size: real, w1: MapXY, w2: MapXY, t1: real, t2: real)
    requires t1 < t2 && Measured(g, c) && g.close == CloseEnough(size) && size >= 0.0
    requires 0.0 <= g.distance(w1, w2) <= t2 - t1
    ensures TilesFit(g, c, size, g.distance(w1, w2), Cuts(g, c, w1, w2, t1, t2), t1, t2)
    decreases Depth(t1, t2)
  {
    if Fits(g, w1, w2, t1, t2) {
      UncutFits(g, c, size, w1, w2, t1, t2);
    } else {
      HalvingDescends(t1, t2);
      var p, q, tm := c(t1), c(t2), Half(t1, t2);
      var m, chord := Mid(p, q), g.distance(p, q);
      assert g.distance(p, m) == chord / 2.0 && g.distance(m, q) == chord / 2.0;
      CutIsLong(g, size, w1, w2, t1, t2);
      CutsFit(g, c, size, p, m, t1, tm);
      CutsFit(g, c, size, m, q, tm, t2);
      CutsPartition(g, c, p, m, t1, tm);
      CutsPartition(g, c, m, q, tm, t2);
      JoinedFit(g, c, size, g.distance(w1, w2), chord, Cuts(g, c, p, m, t1, tm), Cuts(g, c, m, q, tm, t2), t1, t2);
    }
  }

  // ---------------------------------------------------------------- a whole edge of a lane

  /** A tile of an edge whose way-point polygons are d apart. */
  ghost predicate ShortSpan(g: Geometry, c: Curve, size: real, d: real, s: real, t: real) {
    t - s <= Max(size, FLOAT_VALUE) || Pinched(g, c, s, t) || d < 2.0 * FLOAT_VALUE
  }

  /** A tile of an edge from a to b is one of the halves that are always made, or comes from a cut that was needed. */
  ghost predicate NeededSpan(g: Geometry, c: Curve, size: real, d: real, a: real, b: real, s: real, t: real) {
    || Halves(s, t, a, b)
    || NeededCut(g, c, size, d / 2.0, a, Half(a, b), s, t)
    || NeededCut(g, c, size, d / 2.0, Half(a, b), b, s, t)
  }

  ghost predicate SpanFits(g: Geometry, c: Curve, size: real, d: real, fs: seq<real>, i: nat, a: real, b: real)
    requires i < |fs|
  {
    && ShortSpan(g, c, size, d, From(fs, i, a, b), To(fs, i, a, b))
    && NeededSpan(g, c, size, d, a, b, From(fs, i, a, b), To(fs, i, a, b))
  }

  /** Every tile of an edge is short enough, and no shorter than it must be. */
  lemma EdgeCutsFit(g: Geometry, c: Curve, size: real, m1: MapXY, m2: MapXY, a: real, b: real)
    requires a < b && Measured(g, c) && g.close == CloseEnough(size) && size >= 0.0
    requires 0.0 <= g.distance(m1, m2) <= b - a
    ensures var fs, d := EdgeCuts(g, c, m1, m2, a, b), g.distance(m1, m2);
      forall i: nat :: i < |fs| ==> SpanFits(g, c, size, d, fs, i, a, b)
  {
    var h, m, d := Half(a, b), Mid(m1, m2), g.distance(m1, m2);
    var x, y := Cuts(g, c, m1, m, a, h), Cuts(g, c, m, m2, h, b);
    assert g.distance(m1, m) == d / 2.0 && g.distance(m, m2) == d / 2.0;
    CutsFit(g, c, size, m1, m, a, h);
    CutsFit(g, c, size, m, m2, h, b);
    CutsPartition(g, c, m1, m, a, h);
    CutsPartition(g, c, m, m2, h, b);
    EdgeHalves(g, c, size, d, x, y, a, b);
  }

  lemma EdgeHalves(g: Geometry, c: Curve, size: real, d: real, x: seq<real>, y: seq<real>, a: real, b: real)
    requires Partition(x) && Partition(y)
    requires TilesFit(g, c, size, d / 2.0, x, a, Half(a, b)) && TilesFit(g, c, size, d / 2.0, y, Half(a, b), b)
    ensures var fs := Scaled(x, 0.0) + Scaled(y, 1.0); forall i: nat :: i < |fs| ==> SpanFits(g, c, size, d, fs, i, a, b)
  {
    var fs, h := Scaled(x, 0.0) + Scaled(y, 1.0), Half(a, b);
    forall i: nat | i < |fs| ensures SpanFits(g, c, size, d, fs, i, a, b) {
      if i < |x| {
        FirstEnds(x, y, i, a, b);
        HalfTile(g, c, size, d, x, i, a, h, a, b);
      } else {
        SecondEnds(x, y, i - |x|, a, b);
        HalfTile(g, c, size, d, y, i - |x|, h, b, a, b);
      }
    }
  }

  lemma HalfTile(
      g: Geometry, c: Curve, size: real, d: real, fs: seq<real>, i: nat, s: real, t: real, a: real, b: real)
    requires i < |fs| && TilesFit(g, c, size, d / 2.0, fs, s, t) && (|fs| == 1 ==> fs[0] == 1.0)
    requires (s == a && t == Half(a, b)) || (s == Half(a, b) && t == b)
    ensures ShortSpan(g, c, size, d, From(fs, i, s, t), To(fs, i, s, t))
    ensures NeededSpan(g, c, size, d, a, b, From(fs, i, s, t), To(fs, i, s, t))
  {
    assert TileFits(g, c, size, d / 2.0, fs, i, s, t);
    if |fs| == 1 { assert From(fs, i, s, t) == s && To(fs, i, s, t) == t && Halves(s, t, a, b); }
  }

  /** The polygons between the two way-points of an edge end where the cuts of the edge fall. */
  lemma EdgeTileAt(g: Geometry, polys: seq<Poly>, c: Curve, w1: ElementId, w2: ElementId, t1: real, t2: real, i: nat)
    requires t1 < t2
    requires var start := Begun(g, polys, w1, t1);
      FarApart(g, Last(start), WayPoly(g, w2, t2), t1 + WAY_POLY_SIZE, t2 - WAY_POLY_SIZE)
    ensures var start, poly2 := Begun(g, polys, w1, t1), WayPoly(g, w2, t2);
      var poly1, r := Last(start), EdgeTiled(g, polys, c, w1, w2, t1, t2);
      var fs := CutsBetween(g, c, poly1, poly2, t1 + WAY_POLY_SIZE, t2 - WAY_POLY_SIZE);
      && |r| == |start| + |fs| + 1
      && (i + 1 < |fs| ==> InteriorTile(r[|start| + i], TransitionStrip(g, poly1, poly2, w1, w2), fs[i]))
  {
    var start, poly2 := Begun(g, polys, w1, t1), WayPoly(g, w2, t2);
    var poly1 := Last(start);
    var strip := TransitionStrip(g, poly1, poly2, w1, w2);
    var fs := CutsBetween(g, c, poly1, poly2, t1 + WAY_POLY_SIZE, t2 - WAY_POLY_SIZE);
    EdgeIsClosed(g, polys, c, w1, w2, t1, t2, start, poly1, poly2, strip, fs);
    TileAt(start, strip, fs, poly2, i);
  }

  lemma EdgeIsClosed(
      g: Geometry, polys: seq<Poly>, c: Curve, w1: ElementId, w2: ElementId, t1: real, t2: real,
      start: seq<Poly>, poly1: Poly, poly2: Poly, strip: Strip, fs: seq<real>)
    requires t1 < t2 && start == Begun(g, polys, w1, t1) && poly1 == Last(start) && poly2 == WayPoly(g, w2, t2)
    requires FarApart(g, poly1, poly2, t1 + WAY_POLY_SIZE, t2 - WAY_POLY_SIZE) && strip == TransitionStrip(g, poly1, poly2, w1, w2)
    requires fs == CutsBetween(g, c, poly1, poly2, t1 + WAY_POLY_SIZE, t2 - WAY_POLY_SIZE)
    ensures EdgeTiled(g, polys, c, w1, w2, t1, t2) == Closed(Tiled(start, strip, fs), poly2)
  {}

  lemma TileAt(start: seq<Poly>, strip: Strip, fs: seq<real>, poly2: Poly, i: nat)
    requires start != []
    ensures var r := Closed(Tiled(start, strip, fs), poly2);
      |r| == |start| + |fs| + 1 && (i + 1 < |fs| ==> InteriorTile(r[|start| + i], strip, fs[i]))
  {
    TiledChain(start, strip, fs);
    ClosedKeepsTile(Tiled(start, strip, fs), poly2, |start| + i);
  }

  lemma ClosedKeepsTile(polys: seq<Poly>, poly2: Poly, k: nat)
    requires polys != []
    ensures |Closed(polys, poly2)| == |polys| + 1 && (k + 1 < |polys| ==> Closed(polys, poly2)[k] == polys[k])
  {}

  /** The cuts of an edge, between the polygons of its two way-points. */
  function CutsBetween(g: Geometry, c: Curve, poly1: Poly, poly2: Poly, a: real, b: real): seq<real> {
    EdgeCuts(g, c, Mid(poly1.p2, poly1.p3), Mid(poly2.p1, poly2.p4), a, b)
  }

  function Apart(g: Geometry, poly1: Poly, poly2: Poly): real { g.distance(Mid(poly1.p2, poly1.p3), Mid(poly2.p1, poly2.p4)) }

  /**
   * The edge that the builder makes: its interior polygons span the curve between the way-point
   * polygons, each no longer than asked for and none shorter than the rule makes it.
   */
  lemma EdgeTilesFit(g: Geometry, polys: seq<Poly>, c: Curve, size: real, w1: ElementId, w2: ElementId, t1: real, t2: real, i: nat)
    requires t1 < t2 && Measured(g, c) && g.close == CloseEnough(size) && size >= 0.0
    requires var poly1, poly2, a, b := Last(Begun(g, polys, w1, t1)), WayPoly(g, w2, t2), t1 + WAY_POLY_SIZE, t2 - WAY_POLY_SIZE;
      FarApart(g, poly1, poly2, a, b) && Apart(g, poly1, poly2) <= b - a
    ensures var start, poly2, a, b := Begun(g, polys, w1, t1), WayPoly(g, w2, t2), t1 + WAY_POLY_SIZE, t2 - WAY_POLY_SIZE;
      var poly1, r := Last(start), EdgeTiled(g, polys, c, w1, w2, t1, t2);
      var fs := CutsBetween(g, c, poly1, poly2, a, b);
      && |r| == |start| + |fs| + 1
      && (i + 1 < |fs| ==> InteriorTile(r[|start| + i], TransitionStrip(g, poly1, poly2, w1, w2), fs[i]))
      && (i < |fs| ==> SpanFits(g, c, size, Apart(g, poly1, poly2), fs, i, a, b))
  {
    var poly1, poly2, a, b := Last(Begun(g, polys, w1, t1)), WayPoly(g, w2, t2), t1 + WAY_POLY_SIZE, t2 - WAY_POLY_SIZE;
    EdgeTileAt(g, polys, c, w1, w2, t1, t2, i);
    SpansBetween(g, c, size, poly1, poly2, a, b);
  }

  lemma SpansBetween(g: Geometry, c: Curve, size: real, poly1: Poly, poly2: Poly, a: real, b: real)
    requires a < b && Measured(g, c) && g.close == CloseEnough(size) && size >= 0.0
    requires 0.0 <= Apart(g, poly1, poly2) <= b - a
    ensures var fs := CutsBetween(g, c, poly1, poly2, a, b);
      forall i: nat :: i < |fs| ==> SpanFits(g, c, size, Apart(g, poly1, poly2), fs, i, a, b)
  {
    EdgeCutsFit(g, c, size, Mid(poly1.p2, poly1.p3), Mid(poly2.p1, poly2.p4), a, b);
  }

  // ---------------------------------------------------------------- straight roads

  ghost predicate StraightRoad(g: Geometry, c: Curve) {
    Measured(g, c) && forall s, t :: s <= t ==> g.distance(c(s), c(t)) == t - s
  }

  lemma LongHalf(size: real, k: real)
    requires k > 0.0 && !ShortEnough(size, k, k)
    ensures k > size
  {
    if k <= size { Times(k, size, k); }
  }

  lemma StraightCut(g: Geometry, c: Curve, size: real, e: real, t1: real, t2: real, s: real, t: real, k: real)
    requires StraightRoad(g, c) && s < t && e == t2 - t1 && NeededCut(g, c, size, e, t1, t2, s, t) && k == Twice(s, t)
    ensures k > size
  {
    if NestedCut(g, c, size, s, t, k) { NestedIsLong(g, c, size, s, t, k); } else { TooLong(size, e, k); }
  }

  lemma NestedIsLong(g: Geometry, c: Curve, size: real, s: real, t: real, k: real)
    requires StraightRoad(g, c) && s < t && k == Twice(s, t) && NestedCut(g, c, size, s, t, k)
    ensures k > size
  {
    var s', t', s'', t'' :| Halves(s, t, s', t') && Halves(s', t', s'', t'')
                           && !ShortEnough(size, g.distance(c(s''), c(t'')) / 2.0, k);
    NestedLength(g, c, s, t, s', t', s'', t'');
    TooLong(size, g.distance(c(s''), c(t'')) / 2.0, k);
  }

  lemma TooLong(size: real, e: real, k: real)
    requires k > 0.0 && e == k && !ShortEnough(size, e, k)
    ensures k > size
  {
    LongHalf(size, k);
  }

  lemma NestedLength(g: Geometry, c: Curve, s: real, t: real, s': real, t': real, s'': real, t'': real)
    requires StraightRoad(g, c) && s < t && Halves(s, t, s', t') && Halves(s', t', s'', t'')
    ensures g.distance(c(s''), c(t'')) / 2.0 == Twice(s, t)
  {
    assert t' - s' == Twice(s, t) && t'' - s'' == Twice(s', t');
  }

  /** On a straight road every tile is longer than half the size and at most the size, unless it is half the edge. */
  lemma StraightTiles(g: Geometry, c: Curve, size: real, m1: MapXY, m2: MapXY, a: real, b: real, i: nat)
    requires a < b && StraightRoad(g, c) && g.close == CloseEnough(size) && size >= FLOAT_VALUE
    requires g.distance(m1, m2) == b - a && b - a >= 2.0 * FLOAT_VALUE && i < |EdgeCuts(g, c, m1, m2, a, b)|
    ensures var fs := EdgeCuts(g, c, m1, m2, a, b); var span := To(fs, i, a, b) - From(fs, i, a, b);
      0.0 < span <= size && (span == (b - a) / 2.0 || 2.0 * span > size)
  {
    var fs := EdgeCuts(g, c, m1, m2, a, b);
    EdgeCutsFit(g, c, size, m1, m2, a, b);
    EdgeCutsPartition(g, c, m1, m2, a, b);
    SpanIsPositive(fs, i, a, b);
    assert SpanFits(g, c, size, b - a, fs, i, a, b);
    StraightSpan(g, c, size, a, b, From(fs, i, a, b), To(fs, i, a, b));
  }

  lemma StraightSpan(g: Geometry, c: Curve, size: real, a: real, b: real, s: real, t: real)
    requires StraightRoad(g, c) && size >= FLOAT_VALUE && b - a >= 2.0 * FLOAT_VALUE && s < t
    requires ShortSpan(g, c, size, b - a, s, t) && NeededSpan(g, c, size, b - a, a, b, s, t)
    ensures t - s <= size && (t - s == (b - a) / 2.0 || 2.0 * (t - s) > size)
  {
    StraightShort(g, c, size, b - a, s, t);
    if !Halves(s, t, a, b) {
      var k := Twice(s, t);
      if NeededCut(g, c, size, (b - a) / 2.0, a, Half(a, b), s, t) {
        StraightCut(g, c, size, (b - a) / 2.0, a, Half(a, b), s, t, k);
      } else {
        StraightCut(g, c, size, (b - a) / 2.0, Half(a, b), b, s, t, k);
      }
    }
  }

  lemma SpanIsPositive(fs: seq<real>, i: nat, a: real, b: real)
    requires a < b && Partition(fs) && i < |fs|
    ensures From(fs, i, a, b) < To(fs, i, a, b)
  {
    LerpGrows(a, b, if i == 0 then 0.0 else fs[i - 1], fs[i]);
  }

  lemma LerpGrows(a: real, b: real, f: real, f': real)
    requires a < b && f < f'
    ensures Lerp(a, b, f) < Lerp(a, b, f')
  {
    var k, d := b - a, f' - f;
    assert k * d > 0.0;
    assert k * f' == k * f + k * d;
  }

  lemma StraightShort(g: Geometry, c: Curve, size: real, d: real, s: real, t: real)
    requires StraightRoad(g, c) && s < t && d >= 2.0 * FLOAT_VALUE && size >= FLOAT_VALUE && ShortSpan(g, c, size, d, s, t)
    ensures t - s <= size
  {
    assert g.distance(c(s), c(t + (t - s))) == 2.0 * (t - s);
    assert g.distance(c(s - (t - s)), c(t)) == 2.0 * (t - s);
  }
}
