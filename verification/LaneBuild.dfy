/** The polygons of a whole map: lanes and transitions, one after the other on a shared list. */
module LaneBuild {
  import opened WayPoints
  import opened MapLanes

  /** One call of the map builder: a lane with its fitted curve, or a transition with its own. */
  datatype Work =
    | Lane(knots: seq<Knot>, curve: Curve)
    | Link(from: ElementId, to: ElementId, t1: real, t2: real, curve: Curve)

  function Worked(g: Geometry, polys: seq<Poly>, work: Work): seq<Poly> {
    match work
    case Lane(knots, c) => LaneTiled(g, polys, c, knots)
    case Link(from, to, t1, t2, c) => if polys == [] then polys else Linked(g, polys, c, from, to, t1, t2)
  }

  function Built(g: Geometry, works: seq<Work>): seq<Poly> {
    if works == [] then [] else Worked(g, Built(g, works[..|works| - 1]), works[|works| - 1])
  }

  lemma BuiltNext(g: Geometry, works: seq<Work>, n: nat)
    requires n < |works|
    ensures Built(g, works[..n + 1]) == Worked(g, Built(g, works[..n]), works[n])
  {
    assert works[..n + 1][..n] == works[..n];
  }

  // ---------------------------------------------------------------- later lanes

  /** A longer list that starts with the same polygons, but for the front of the last of them. */
  ghost predicate Extends(polys: seq<Poly>, r: seq<Poly>) {
    && |polys| <= |r|
    && (forall i :: 0 <= i < |polys| - 1 ==> r[i] == polys[i])
    && (polys != [] ==> r[|polys| - 1].p1 == Last(polys).p1 && r[|polys| - 1].p4 == Last(polys).p4)
  }

  lemma ExtendsOn(polys: seq<Poly>, q: seq<Poly>, r: seq<Poly>)
    requires Extends(polys, q) && Extends(q, r)
    ensures Extends(polys, r)
  {}

  lemma ExtendsSegment(polys: seq<Poly>, r: seq<Poly>, k: nat, m: nat)
    requires Extends(polys, r) && Segment(polys, k, m)
    ensures Segment(r, k, m)
  {
    forall i | k < i < m ensures Touch(r[i - 1], r[i]) {
      assert Touch(polys[i - 1], polys[i]);
    }
  }

  lemma EdgeExtends(g: Geometry, polys: seq<Poly>, c: Curve, w1: ElementId, w2: ElementId, t1: real, t2: real)
    ensures Extends(polys, EdgeTiled(g, polys, c, w1, w2, t1, t2))
  {
    if t1 < t2 {
      var start, poly2 := Begun(g, polys, w1, t1), WayPoly(g, w2, t2);
      BegunStarts(g, polys, w1, t1);
      FilledChain(g, start, poly2, c, w1, w2, t1 + WAY_POLY_SIZE, t2 - WAY_POLY_SIZE);
      var filled := Filled(g, start, poly2, c, w1, w2, t1 + WAY_POLY_SIZE, t2 - WAY_POLY_SIZE);
      ClosedExtends(polys, start, filled, poly2, w1, w2);
    }
  }

  lemma ClosedExtends(polys: seq<Poly>, start: seq<Poly>, filled: seq<Poly>, poly2: Poly, w1: ElementId, w2: ElementId)
    requires Fills(start, filled, w1, w2)
    requires start == polys || (start[..|start| - 1] == polys && |start| == |polys| + 1)
    ensures Extends(polys, Closed(filled, poly2))
  {
    forall i | 0 <= i < |polys| ensures filled[i] == polys[i] {
      assert filled[i] == filled[..|start|][i];
      assert start != polys ==> start[i] == start[..|start| - 1][i];
    }
  }

  lemma {:induction false} LaneExtends(g: Geometry, polys: seq<Poly>, c: Curve, lane: seq<Knot>)
    ensures Extends(polys, LaneTiled(g, polys, c, lane))
  {
    if |lane| >= 2 {
      var prior, a, b := lane[..|lane| - 1], lane[|lane| - 2], lane[|lane| - 1];
      LaneExtends(g, polys, c, prior);
      EdgeExtends(g, LaneTiled(g, polys, c, prior), c, a.id, b.id, a.time, b.time);
      ExtendsOn(polys, LaneTiled(g, polys, c, prior), LaneTiled(g, polys, c, lane));
    }
  }

  // ---------------------------------------------------------------- lanes through a whole build

  /** The call moves the front of a polygon of the segment away from the one behind it. */
  predicate Tears(g: Geometry, polys: seq<Poly>, work: Work, k: nat, m: nat) {
    match work
    case Lane(_, _) => false
    case Link(from, to, t1, t2, _) =>
      var (i, j) := Places(polys, from, to);
      TearsAt(g, polys, i, j, from, to, t1, t2, k, m)
  }

  /** Any single call, on any list: a chain of the list survives exactly if the call does not tear it. */
  lemma WorkKeepsSegment(g: Geometry, polys: seq<Poly>, work: Work, k: nat, m: nat)
    requires Segment(polys, k, m)
    ensures Segment(Worked(g, polys, work), k, m) <==> !Tears(g, polys, work, k, m)
  {
    match work
    case Lane(knots, c) =>
      LaneExtends(g, polys, c, knots);
      ExtendsSegment(polys, LaneTiled(g, polys, c, knots), k, m);
    case Link(from, to, t1, t2, c) =>
      if polys != [] {
        var (i, j) := Places(polys, from, to);
        TransitionKeepsChain(g, polys, c, i, j, from, to, t1, t2, k, m);
      }
  }

  /** The segment is whole after every call from a on, before n. */
  ghost predicate Whole(g: Geometry, works: seq<Work>, a: nat, n: nat, k: nat, m: nat)
    requires n <= |works|
  {
    forall b :: a < b <= n ==> Segment(Built(g, works[..b]), k, m)
  }

  ghost predicate Untorn(g: Geometry, works: seq<Work>, a: nat, n: nat, k: nat, m: nat)
    requires n <= |works|
  {
    forall b :: a < b < n ==> !Tears(g, Built(g, works[..b]), works[b], k, m)
  }

  lemma {:induction false} SegmentLasts(g: Geometry, works: seq<Work>, a: nat, n: nat, k: nat, m: nat)
    requires a < n <= |works| && Segment(Built(g, works[..a + 1]), k, m)
    ensures Whole(g, works, a, n, k, m) <==> Untorn(g, works, a, n, k, m)
    decreases n
  {
    if n > a + 1 {
      SegmentLasts(g, works, a, n - 1, k, m);
      WholeStep(g, works, a, n, k, m);
      UntornStep(g, works, a, n, k, m);
      if Whole(g, works, a, n - 1, k, m) {
        LastCall(g, works, a, n, k, m);
      }
    }
  }

  lemma WholeStep(g: Geometry, works: seq<Work>, a: nat, n: nat, k: nat, m: nat)
    requires a + 1 < n <= |works|
    ensures Whole(g, works, a, n, k, m) <==> Whole(g, works, a, n - 1, k, m) && Segment(Built(g, works[..n]), k, m)
  {}

  lemma UntornStep(g: Geometry, works: seq<Work>, a: nat, n: nat, k: nat, m: nat)
    requires a + 1 < n <= |works|
    ensures Untorn(g, works, a, n, k, m) <==>
      Untorn(g, works, a, n - 1, k, m) && !Tears(g, Built(g, works[..n - 1]), works[n - 1], k, m)
  {}

  lemma LastCall(g: Geometry, works: seq<Work>, a: nat, n: nat, k: nat, m: nat)
    requires a + 1 < n <= |works| && Whole(g, works, a, n - 1, k, m)
    ensures Segment(Built(g, works[..n]), k, m) <==> !Tears(g, Built(g, works[..n - 1]), works[n - 1], k, m)
  {
    WorkKeepsSegment(g, Built(g, works[..n - 1]), works[n - 1], k, m);
    BuiltNext(g, works, n - 1);
  }

  /** Where the polygons of the lane that call a makes begin and end. */
  function LaneStart(g: Geometry, works: seq<Work>, a: nat): nat
    requires a < |works| && works[a].Lane? && works[a].knots != []
  {
    |Begun(g, Built(g, works[..a]), works[a].knots[0].id, works[a].knots[0].time)| - 1
  }

  function LaneEnd(g: Geometry, works: seq<Work>, a: nat): nat requires a < |works| { |Built(g, works[..a + 1])| }

  /**
   * Through a whole build, lanes and transitions in any order: the polygons of a lane stay one
   * unbroken chain after every later call if and only if none of these tears it.
   */
  lemma LaneStaysWhole(g: Geometry, works: seq<Work>, a: nat, n: nat)
    requires a < n <= |works| && works[a].Lane? && |works[a].knots| >= 2 && Increasing(works[a].knots)
    ensures var k, m := LaneStart(g, works, a), LaneEnd(g, works, a);
      && k + 1 < m && Segment(Built(g, works[..a + 1]), k, m)
      && (Whole(g, works, a, n, k, m) <==> Untorn(g, works, a, n, k, m))
  {
    var before := Built(g, works[..a]);
    LaneIsChain(g, before, works[a].curve, works[a].knots);
    BuiltNext(g, works, a);
    SegmentLasts(g, works, a, n, LaneStart(g, works, a), LaneEnd(g, works, a));
  }

  // ---------------------------------------------------------------- a lane that is torn

  // Two straight lanes of two way-points, the second starting 0.8 m further and 0.4 m to the side.

  function Shift(seg: int): MapXY { if seg == 1 then MapXY(0.0, 0.0) else MapXY(0.8, 0.4) }

  /** The polygon of a way-point at x = t of its lane, 1 m long and 2 m wide. */
  function Around(id: ElementId, t: real): Poly {
    var x, y := t + Shift(id.seg).x, Shift(id.seg).y;
    Poly(MapXY(x - 0.5, y + 1.0), MapXY(x + 0.5, y + 1.0), MapXY(x + 0.5, y - 1.0), MapXY(x - 0.5, y - 1.0), 0, id, id, true)
  }

  function Abs(x: real): real { if x < 0.0 then -x else x }

  function Roads(): Geometry {
    Geometry(
      (p: MapXY, q: MapXY) => Abs(p.x - q.x) + Abs(p.y - q.y),
      Around,
      (p: Poly, q: Poly) => Side((x: real) => MapXY(x, p.p2.y), p.p2.x, q.p1.x),
      (p: Poly, q: Poly) => Side((x: real) => MapXY(x, p.p3.y), p.p3.x, q.p4.x),
      CloseEnough(2.0))
  }

  function Way(seg: int, pt: int): ElementId { ElementId(seg, 1, pt) }

  function Straight(seg: int): Work {
    Lane([Knot(Way(seg, 1), 0.0), Knot(Way(seg, 2), 2.0)], t => MapXY(t + Shift(seg).x, Shift(seg).y))
  }

  /** An exit from the first way-point of the first lane to that of the second, 0.9 m long. */
  function CloseExit(): Work { Link(Way(1, 1), Way(2, 1), 0.0, 0.9, t => MapXY(0.8 * t / 0.9, 0.4 * t / 0.9)) }

  /** Between the two way-points of an edge there is room for tiles. */
  predicate HasRoom(g: Geometry, w1: ElementId, w2: ElementId, t1: real, t2: real) {
    FarApart(g, WayPoly(g, w1, t1), WayPoly(g, w2, t2), t1 + WAY_POLY_SIZE, t2 - WAY_POLY_SIZE)
  }

  /** The way-points of the polygons from position n on: first at the beginning, last at the end, none between. */
  ghost predicate Ends(r: seq<Poly>, n: nat, w1: ElementId, w2: ElementId) {
    && n + 2 < |r| && IsWayPoly(r[n], w1) && IsWayPoly(Last(r), w2)
    && forall i :: n < i < |r| - 1 ==> !r[i].containsWay
  }

  /** An edge that begins a lane leaves the list alone and its first polygon as it was made. */
  lemma EdgeBegins(g: Geometry, polys: seq<Poly>, c: Curve, w1: ElementId, w2: ElementId, t1: real, t2: real)
    requires t1 < t2 && (polys == [] || Last(polys).endWay != w1) && HasRoom(g, w1, w2, t1, t2)
    ensures var r, n := EdgeTiled(g, polys, c, w1, w2, t1, t2), |polys|;
      && Ends(r, n, w1, w2) && r[..n] == polys && r[n] == WayPoly(g, w1, t1).(polyId := n) && Last(r).endWay == w2
  {
    var start, poly2 := Begun(g, polys, w1, t1), WayPoly(g, w2, t2);
    var a, b, poly1 := t1 + WAY_POLY_SIZE, t2 - WAY_POLY_SIZE, Last(start);
    EdgeCutsPartition(g, c, Mid(poly1.p2, poly1.p3), Mid(poly2.p1, poly2.p4), a, b);
    FilledChain(g, start, poly2, c, w1, w2, a, b);
    var filled := Filled(g, start, poly2, c, w1, w2, a, b);
    ClosedBegins(polys, start, filled, poly2, w1, w2);
  }

  lemma ClosedBegins(polys: seq<Poly>, start: seq<Poly>, filled: seq<Poly>, poly2: Poly, w1: ElementId, w2: ElementId)
    requires Fills(start, filled, w1, w2) && |filled| > |start| == |polys| + 1 && start[..|polys|] == polys
    requires IsWayPoly(Last(start), w1) && IsWayPoly(poly2, w2)
    ensures var r, n := Closed(filled, poly2), |polys|;
      Ends(r, n, w1, w2) && r[..n] == polys && r[n] == Last(start) && Last(r).endWay == poly2.endWay
  {
    var r, n := Closed(filled, poly2), |polys|;
    assert filled[n] == filled[..|start|][n];
    forall i | 0 <= i < n ensures r[i] == polys[i] {
      assert filled[i] == filled[..|start|][i] && start[i] == start[..n][i];
    }
  }

  /** The polygons of the first way-points of two lanes, found in a list of just these lanes. */
  lemma FirstsFound(polys: seq<Poly>, n: nat, w1: ElementId, w2: ElementId, v1: ElementId, v2: ElementId)
    requires n <= |polys| && Ends(polys[..n], 0, w1, w2) && Ends(polys, n, v1, v2)
    requires w1 != w2 && w1 != v1 && w1 != v2 && w2 != v1 && v1 != v2
    ensures Places(polys, w1, v1) == (0, n)
  {
    PlacesFound(polys, w1, v1);
    forall i | 0 <= i < |polys| ensures IsWayPoly(polys[i], w1) <==> i == 0 {
      if i < n { assert polys[i] == polys[..n][i]; }
    }
    forall i | 0 <= i < |polys| ensures IsWayPoly(polys[i], v1) <==> i == n {
      if i < n { assert polys[i] == polys[..n][i]; }
    }
  }

  lemma StraightEdge(polys: seq<Poly>, seg: int)
    requires polys == [] || Last(polys).endWay != Way(seg, 1)
    ensures var r, n := Worked(Roads(), polys, Straight(seg)), |polys|;
      && Ends(r, n, Way(seg, 1), Way(seg, 2)) && r[..n] == polys && Last(r).endWay == Way(seg, 2)
      && r[n] == Around(Way(seg, 1), 0.0).(polyId := n)
  {
    var g, w := Roads(), Straight(seg);
    assert w.knots[..1] == [w.knots[0]];
    assert LaneTiled(g, polys, w.curve, [w.knots[0]]) == polys;
    RoomOnStraight(seg);
    EdgeBegins(g, polys, w.curve, Way(seg, 1), Way(seg, 2), 0.0, 2.0);
  }

  lemma RoomOnStraight(seg: int)
    ensures HasRoom(Roads(), Way(seg, 1), Way(seg, 2), 0.0, 2.0)
  {
    var a, b := Around(Way(seg, 1), 0.0), Around(Way(seg, 2), 2.0);
    assert Mid(b.p1, b.p4).x - Mid(a.p2, a.p3).x == 1.0;
  }

  lemma ThreeCalls(g: Geometry, a: Work, b: Work, c: Work)
    ensures var works, one := [a, b, c], Worked(g, [], a);
      && Built(g, works[..0]) == [] && Built(g, works[..1]) == one && Built(g, works[..2]) == Worked(g, one, b)
      && Built(g, works) == Worked(g, Worked(g, one, b), c)
  {
    var works := [a, b, c];
    BuiltNext(g, works, 0);
    BuiltNext(g, works, 1);
    BuiltNext(g, works, 2);
    assert works[..0] == [] && works[..3] == works;
  }

  /** The lane of the first of three calls is whole after two of them and torn by the third. */
  ghost predicate TornLast(g: Geometry, works: seq<Work>)
    requires |works| == 3 && works[0].Lane? && works[0].knots != []
  {
    var k, m := LaneStart(g, works, 0), LaneEnd(g, works, 0);
    && k + 1 < m && Segment(Built(g, works[..1]), k, m) && Segment(Built(g, works[..2]), k, m)
    && !Segment(Built(g, works), k, m)
  }

  lemma TearingRun(g: Geometry, a: Work, b: Work, c: Work, one: seq<Poly>, two: seq<Poly>)
    requires a.Lane? && |a.knots| >= 2 && Increasing(a.knots) && b.Lane?
    requires one == Worked(g, [], a) && two == Worked(g, one, b) && Tears(g, two, c, 0, |one|)
    ensures TornLast(g, [a, b, c])
  {
    ThreeCalls(g, a, b, c);
    LaneStaysWhole(g, [a, b, c], 0, 1);
    assert LaneStart(g, [a, b, c], 0) == 0 && LaneEnd(g, [a, b, c], 0) == |one|;
    WorkKeepsSegment(g, one, b, 0, |one|);
    WorkKeepsSegment(g, two, c, 0, |one|);
  }

  lemma TornPlaces(one: seq<Poly>, two: seq<Poly>)
    requires one == Worked(Roads(), [], Straight(1)) && two == Worked(Roads(), one, Straight(2))
    ensures |one| > 2 && Tears(Roads(), two, CloseExit(), 0, |one|)
  {
    StraightEdge([], 1);
    StraightEdge(one, 2);
    TornFound(one, two);
  }

  /** Two lanes, and an exit between way-points too close for a transition: the first lane is torn. */
  lemma TransitionBreaksChain() returns (g: Geometry, works: seq<Work>)
    ensures |works| == 3 && works[0].Lane? && works[1].Lane? && works[2].Link?
    ensures works[0].knots != [] && TornLast(g, works)
  {
    var a, b, c;
    g, a, b, c := TornCalls();
    TearingRun(g, a, b, c, Worked(g, [], a), Worked(g, Worked(g, [], a), b));
    works := [a, b, c];
  }

  lemma TornCalls() returns (g: Geometry, a: Work, b: Work, c: Work)
    ensures a.Lane? && |a.knots| >= 2 && Increasing(a.knots) && b.Lane? && c.Link?
    ensures var one := Worked(g, [], a); Tears(g, Worked(g, one, b), c, 0, |one|)
  {
    g := Roads();
    a := StraightLane(1);
    b := StraightLane(2);
    c := CloseExit();
    var one := Worked(g, [], a);
    TornPlaces(one, Worked(g, one, b));
  }

  lemma StraightLane(seg: int) returns (a: Work)
    ensures a == Straight(seg) && a.Lane? && |a.knots| == 2 && Increasing(a.knots)
  {
    a := Straight(seg);
  }

  lemma TornFound(one: seq<Poly>, two: seq<Poly>)
    requires Ends(one, 0, Way(1, 1), Way(1, 2)) && Ends(two, |one|, Way(2, 1), Way(2, 2)) && two[..|one|] == one
    requires one[0] == Around(Way(1, 1), 0.0).(polyId := 0) && two[|one|] == Around(Way(2, 1), 0.0).(polyId := |one|)
    ensures Tears(Roads(), two, CloseExit(), 0, |one|)
  {
    assert two[0] == two[..|one|][0];
    FirstsFound(two, |one|, Way(1, 1), Way(1, 2), Way(2, 1), Way(2, 2));
    ExitTears(two, |one|);
  }

  lemma ExitTears(polys: seq<Poly>, n: nat)
    requires 2 < n < |polys| && Places(polys, Way(1, 1), Way(2, 1)) == (0, n)
    requires polys[0] == Around(Way(1, 1), 0.0).(polyId := 0) && polys[n] == Around(Way(2, 1), 0.0).(polyId := n)
    ensures Tears(Roads(), polys, CloseExit(), 0, n)
  {
    assert !SameFront(polys[0], polys[n]);
  }
}
