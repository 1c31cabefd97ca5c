/** When no pair of way-points is joined twice. */
module DistinctPairs {
  import opened WayPoints
  import opened RndfGraph
  import opened GraphBuilding
  import opened EdgePairs
  import Rndf
  import Blockage

  ghost predicate NoDup<T(!new)>(s: seq<T>) { forall i, j :: 0 <= i < j < |s| ==> s[i] != s[j] }

  ghost predicate Apart<T(!new)>(a: seq<T>, b: seq<T>) { forall x :: x in a ==> x !in b }

  lemma NoDupAppend<T(!new)>(a: seq<T>, b: seq<T>)
    ensures NoDup(a + b) <==> NoDup(a) && NoDup(b) && Apart(a, b)
  {
    var s := a + b;
    if NoDup(s) {
      forall i, j | 0 <= i < j < |a| ensures a[i] != a[j] { assert s[i] == a[i] && s[j] == a[j]; }
      forall i, j | 0 <= i < j < |b| ensures b[i] != b[j] { assert s[|a| + i] == b[i] && s[|a| + j] == b[j]; }
      forall x | x in a ensures x !in b {
        var i :| 0 <= i < |a| && a[i] == x;
        forall j | 0 <= j < |b| ensures b[j] != x { assert s[i] == x && s[|a| + j] == b[j]; }
      }
    }
    if NoDup(a) && NoDup(b) && Apart(a, b) {
      forall i, j | 0 <= i < j < |s| ensures s[i] != s[j] {
        if i < |a| <= j { assert s[i] in a && s[j] in b; }
      }
    }
  }

  // ---------------------------------------------------------------- edges and pairs

  ghost predicate PairsIn(m: IdMap, pairs: seq<Pair>) { forall p :: p in pairs ==> p.0 in m && p.1 in m }

  /** With one index for each way-point, edges have the same ends exactly if they join the same pair. */
  lemma DistinctIffNoDup(m: IdMap, edges: seq<Edge>, pairs: seq<Pair>)
    requires Matches(m, edges, pairs) && Injective(m) && PairsIn(m, pairs)
    ensures Blockage.DistinctEnds(edges) <==> NoDup(pairs)
  {
    forall i, j | 0 <= i < j < |edges| ensures Blockage.EndsOf(edges[i]) == Blockage.EndsOf(edges[j]) <==> pairs[i] == pairs[j] {
      assert pairs[i] in pairs && pairs[j] in pairs;
    }
    if Blockage.DistinctEnds(edges) {
      forall i, j | 0 <= i < j < |pairs| ensures pairs[i] != pairs[j] {
        assert Blockage.EndsOf(edges[i]) != Blockage.EndsOf(edges[j]);
      }
    }
  }

  /** A pair that is joined twice makes two edges with the same ends, whatever the indices. */
  lemma RepeatedPair(m: IdMap, edges: seq<Edge>, pairs: seq<Pair>)
    requires Matches(m, edges, pairs) && !NoDup(pairs)
    ensures !Blockage.DistinctEnds(edges)
  {
    var i, j :| 0 <= i < j < |pairs| && pairs[i] == pairs[j];
    assert Blockage.EndsOf(edges[i]) == Blockage.EndsOf(edges[j]);
  }

  // ---------------------------------------------------------------- two spots of a zone

  /** Two first points of different spots of one zone. */
  ghost predicate TwoSpots(m: IdMap, x: ElementId, y: ElementId) {
    && x in m && y in m && m[x].isSpot && m[y].isSpot
    && x.seg == y.seg && x.lane != y.lane && x.pt == 1 && y.pt == 1
  }

  lemma LinkedBothWays(m: IdMap, x: ElementId, y: ElementId)
    requires Coherent(m) && TwoSpots(m, x, y)
    ensures (x, y) in LinkPairs(BetweenSpots, m[x], m[y]) && (x, y) in LinkPairs(BetweenSpots, m[y], m[x])
  {
    assert m[x].id == x && m[y].id == y;
  }

  lemma LinkedTwice(m: IdMap, order: seq<ElementId>, p: Pair, i: nat, j: nat)
    requires i < j < |order|
    requires exists y :: y in order && p in LinkPairs(BetweenSpots, At(m, order[i]), At(m, y))
    requires exists y :: y in order && p in LinkPairs(BetweenSpots, At(m, order[j]), At(m, y))
    ensures !NoDup(AllLinkPairs(BetweenSpots, m, order[..j + 1], order))
  {
    var through := order[..j + 1];
    assert through[..j] == order[..j] && through[j] == order[j];
    assert order[i] in order[..j] by { assert order[..j][i] == order[i]; }
    LinkMembers(BetweenSpots, m, order[..j], order, p);
    LinkFromMembers(BetweenSpots, m, At(m, order[j]), order, p);
    NoDupAppend(AllLinkPairs(BetweenSpots, m, order[..j], order), LinkPairsFrom(BetweenSpots, m, At(m, order[j]), order));
  }

  lemma {:induction false} LinksGrow(pass: Pass, m: IdMap, from: seq<ElementId>, order: seq<ElementId>, k: nat)
    requires k <= |from| && !NoDup(AllLinkPairs(pass, m, from[..k], order))
    ensures !NoDup(AllLinkPairs(pass, m, from, order))
    decreases |from| - k
  {
    if k == |from| {
      assert from[..k] == from;
    } else {
      assert from[..k + 1][..k] == from[..k];
      NoDupAppend(AllLinkPairs(pass, m, from[..k], order), LinkPairsFrom(pass, m, At(m, from[k]), order));
      LinksGrow(pass, m, from, order, k + 1);
    }
  }

  lemma OrderedSpots(m: IdMap, order: seq<ElementId>, p: Pair, x: ElementId, y: ElementId, i: nat, j: nat)
    requires Coherent(m) && TwoSpots(m, x, y) && (p == (x, y) || p == (y, x))
    requires i < j < |order| && order[i] == x && order[j] == y
    ensures !NoDup(AllLinkPairs(BetweenSpots, m, order, order))
  {
    LinkedBothWays(m, x, y);
    LinkedBothWays(m, y, x);
    assert order[i] in order && order[j] in order;
    assert p in LinkPairs(BetweenSpots, At(m, x), At(m, y)) && p in LinkPairs(BetweenSpots, At(m, y), At(m, x));
    LinkedTwice(m, order, p, i, j);
    LinksGrow(BetweenSpots, m, order, order, j + 1);
  }

  lemma SpotsLinkedTwice(m: IdMap, order: seq<ElementId>, x: ElementId, y: ElementId)
    requires Coherent(m) && Enumerates(order, m) && TwoSpots(m, x, y)
    ensures !NoDup(AllLinkPairs(BetweenSpots, m, order, order))
  {
    assert x in order && y in order;
    var i :| 0 <= i < |order| && order[i] == x;
    var j :| 0 <= j < |order| && order[j] == y;
    if i < j { OrderedSpots(m, order, (x, y), x, y, i, j); } else { OrderedSpots(m, order, (x, y), y, x, j, i); }
  }

  /** In the built list: two spots of a zone are joined twice. */
  lemma SpotsJoinedTwice(m: IdMap, f: Rndf.File, order: seq<ElementId>, x: ElementId, y: ElementId)
    requires Coherent(m) && Enumerates(order, m) && TwoSpots(m, x, y)
    ensures !Blockage.DistinctEnds(AllEdges(m, f, order))
  {
    SpotsLinkedTwice(m, order, x, y);
    var rest := RoadPairs(f.segments) + RoadExitPairs(f.segments) + ZoneExitPairs(f.zones)
                + AllLinkPairs(Across, m, order, order) + AllLinkPairs(ToSpots, m, order, order);
    NoDupAppend(rest, AllLinkPairs(BetweenSpots, m, order, order));
    EdgesMatch(m, f, order);
    RepeatedPair(m, AllEdges(m, f, order), AllPairs(m, f, order));
  }

  // ---------------------------------------------------------------- lanes never repeat a pair

  ghost predicate IdIn(vs: seq<Vertex>, id: ElementId) { exists v :: v in vs && v.id == id }

  /** The pairs start at way-points of the vertices, each at most once. */
  ghost predicate StartsOnce(pairs: seq<Pair>, vs: seq<Vertex>) {
    NoDup(pairs) && forall p :: p in pairs ==> IdIn(vs, p.0) && IdIn(vs, p.1)
  }

  lemma IdsApart(a: seq<Vertex>, b: seq<Vertex>, id: ElementId)
    requires Distinct(a + b) && IdIn(a, id)
    ensures !IdIn(b, id)
  {
    var v :| v in a && v.id == id;
    var i :| 0 <= i < |a| && a[i] == v;
    forall j | 0 <= j < |b| ensures b[j].id != id {
      assert (a + b)[i] == v && (a + b)[|a| + j] == b[j];
    }
  }

  lemma StartsOnceAppend(p: seq<Pair>, a: seq<Vertex>, q: seq<Pair>, b: seq<Vertex>)
    requires StartsOnce(p, a) && StartsOnce(q, b) && Distinct(a + b)
    ensures StartsOnce(p + q, a + b)
  {
    forall x | x in p ensures x !in q { IdsApart(a, b, x.0); }
    NoDupAppend(p, q);
    forall x | x in p + q ensures IdIn(a + b, x.0) && IdIn(a + b, x.1) {
      if x in p { Within(a, b, x.0); Within(a, b, x.1); } else { Within'(a, b, x.0); Within'(a, b, x.1); }
    }
  }

  lemma Within(a: seq<Vertex>, b: seq<Vertex>, id: ElementId)
    requires IdIn(a, id)
    ensures IdIn(a + b, id)
  {
    var v :| v in a && v.id == id;
    assert v in a + b;
  }

  lemma Within'(a: seq<Vertex>, b: seq<Vertex>, id: ElementId)
    requires IdIn(b, id)
    ensures IdIn(a + b, id)
  {
    var v :| v in b && v.id == id;
    assert v in a + b;
  }

  lemma DistinctParts(a: seq<Vertex>, b: seq<Vertex>)
    requires Distinct(a + b)
    ensures Distinct(a) && Distinct(b)
  {
    var s := a + b;
    forall i, j | 0 <= i < j < |a| ensures a[i].id != a[j].id { assert s[i] == a[i] && s[j] == a[j]; }
    forall i, j | 0 <= i < j < |b| ensures b[i].id != b[j].id { assert s[|a| + i] == b[i] && s[|a| + j] == b[j]; }
  }

  lemma LaneStartsOnce(seg: int, l: Rndf.Lane)
    requires Distinct(VerticesOf(seg, l.id, l.waypoints, false, false))
    ensures StartsOnce(LanePairs(seg, l), VerticesOf(seg, l.id, l.waypoints, false, false))
  {
    var vs, ps := VerticesOf(seg, l.id, l.waypoints, false, false), LanePairs(seg, l);
    forall i: nat | i < |l.waypoints| ensures vs[i].id == PointId(seg, l, i) && IdIn(vs, PointId(seg, l, i)) {
      assert vs[i] in vs;
    }
    forall i, j | 0 <= i < j < |ps| ensures ps[i] != ps[j] {
      assert vs[i].id != vs[j].id;
    }
  }

  lemma {:induction false} LanesStartOnce(seg: int, lanes: seq<Rndf.Lane>)
    requires Distinct(LaneVertices(seg, lanes))
    ensures StartsOnce(LanesPairs(seg, lanes), LaneVertices(seg, lanes))
  {
    if lanes != [] {
      var n := |lanes| - 1;
      var a, b := LaneVertices(seg, lanes[..n]), VerticesOf(seg, lanes[n].id, lanes[n].waypoints, false, false);
      DistinctParts(a, b);
      LanesStartOnce(seg, lanes[..n]);
      LaneStartsOnce(seg, lanes[n]);
      StartsOnceAppend(LanesPairs(seg, lanes[..n]), a, LanePairs(seg, lanes[n]), b);
    }
  }

  lemma {:induction false} RoadStartsOnce(segments: seq<Rndf.Segment>)
    requires Distinct(RoadVertices(segments))
    ensures StartsOnce(RoadPairs(segments), RoadVertices(segments))
  {
    if segments != [] {
      var n := |segments| - 1;
      var s := segments[n];
      var a, b := RoadVertices(segments[..n]), LaneVertices(s.id, s.lanes);
      DistinctParts(a, b);
      RoadStartsOnce(segments[..n]);
      LanesStartOnce(s.id, s.lanes);
      StartsOnceAppend(RoadPairs(segments[..n]), a, LanesPairs(s.id, s.lanes), b);
    }
  }

  // ---------------------------------------------------------------- links within zones

  /** A node is a spot or a perimeter point, or neither. */
  ghost predicate Kinds(m: IdMap) { forall id :: id in m ==> !(m[id].isSpot && m[id].isPerimeter) }

  /** A first point of a spot and its second point. */
  ghost predicate SpotPoints(m: IdMap, x: ElementId, y: ElementId) {
    && x in m && y in m && m[x].isSpot && m[y].isSpot
    && x.seg == y.seg && x.lane == y.lane && x.pt == 1 && y.pt == 2
  }

  /** No exit starts or ends at the second point of a spot. */
  ghost predicate SpotsUnused(m: IdMap) { forall x, y :: SpotPoints(m, x, y) ==> !m[y].isExit && !m[y].isEntry }

  /** No zone has two spots with a first point. */
  ghost predicate SingleSpots(m: IdMap) { forall x, y :: !TwoSpots(m, x, y) }

  ghost predicate Tidy(m: IdMap) { Coherent(m) && Kinds(m) && SpotsUnused(m) && SingleSpots(m) }

  predicate FirstOfSpot(m: IdMap, x: ElementId) { At(m, x).isSpot && x.pt == 1 }

  /** What a pair is that a pass links. */
  ghost predicate Role(pass: Pass, m: IdMap, p: Pair) {
    match pass
    case Across => !At(m, p.0).isSpot && !At(m, p.1).isSpot
    case ToSpots => (FirstOfSpot(m, p.0) && At(m, p.1).isExit) || (FirstOfSpot(m, p.1) && At(m, p.0).isEntry)
    case BetweenSpots => SpotPoints(m, p.0, p.1) || SpotPoints(m, p.1, p.0)
  }

  /** The ordered pair of nodes that a linked pair comes from. */
  function Owner(pass: Pass, m: IdMap, p: Pair): Pair {
    match pass
    case Across => p
    case ToSpots => if FirstOfSpot(m, p.1) then p else (p.1, p.0)
    case BetweenSpots => if p.0.pt == 1 then p else (p.1, p.0)
  }

  lemma LinkFacts(pass: Pass, m: IdMap, x: ElementId, y: ElementId)
    requires Tidy(m) && x in m && y in m
    ensures NoDup(LinkPairs(pass, m[x], m[y]))
    ensures forall p :: p in LinkPairs(pass, m[x], m[y]) ==>
      Owner(pass, m, p) == (x, y) && Role(pass, m, p) && p.0 in m && p.1 in m
      && p.0.seg == p.1.seg && (IsArea(m, p.0) || IsArea(m, p.1))
  {
    assert m[x].id == x && m[y].id == y;
    match pass
    case Across =>
    case ToSpots => assert !TwoSpots(m, x, y);
    case BetweenSpots => assert !TwoSpots(m, x, y);
  }

  predicate IsArea(m: IdMap, id: ElementId) { At(m, id).isSpot || At(m, id).isPerimeter }

  /** What is known of a list of linked pairs: owners among the given pairs of nodes, each pair once. */
  ghost predicate Linked(pass: Pass, m: IdMap, pairs: seq<Pair>) {
    && NoDup(pairs)
    && forall p :: p in pairs ==> Role(pass, m, p) && p.0 in m && p.1 in m
                                  && p.0.seg == p.1.seg && (IsArea(m, p.0) || IsArea(m, p.1))
  }

  lemma LinkedAppend(pass: Pass, m: IdMap, a: seq<Pair>, b: seq<Pair>)
    requires Linked(pass, m, a) && Linked(pass, m, b) && Apart(a, b)
    ensures Linked(pass, m, a + b)
  {
    NoDupAppend(a, b);
  }

  lemma {:induction false} LinkedFrom(pass: Pass, m: IdMap, x: ElementId, order: seq<ElementId>)
    requires Tidy(m) && x in m && NoDup(order) && forall id :: id in order ==> id in m
    ensures Linked(pass, m, LinkPairsFrom(pass, m, m[x], order))
    ensures forall p :: p in LinkPairsFrom(pass, m, m[x], order) ==> Owner(pass, m, p).0 == x && Owner(pass, m, p).1 in order
  {
    if order != [] {
      var n := |order| - 1;
      var a, b := LinkPairsFrom(pass, m, m[x], order[..n]), LinkPairs(pass, m[x], m[order[n]]);
      assert order == order[..n] + [order[n]];
      NoDupAppend(order[..n], [order[n]]);
      LinkedFrom(pass, m, x, order[..n]);
      LinkFacts(pass, m, x, order[n]);
      forall p | p in a ensures p !in b { assert Owner(pass, m, p).1 in order[..n]; }
      LinkedAppend(pass, m, a, b);
    }
  }

  lemma {:induction false} LinkedAll(pass: Pass, m: IdMap, from: seq<ElementId>, order: seq<ElementId>)
    requires Tidy(m) && NoDup(order) && NoDup(from)
    requires (forall id :: id in order ==> id in m) && forall id :: id in from ==> id in m
    ensures Linked(pass, m, AllLinkPairs(pass, m, from, order))
    ensures forall p :: p in AllLinkPairs(pass, m, from, order) ==> Owner(pass, m, p).0 in from
  {
    if from != [] {
      var n := |from| - 1;
      var a, b := AllLinkPairs(pass, m, from[..n], order), LinkPairsFrom(pass, m, m[from[n]], order);
      assert from == from[..n] + [from[n]];
      NoDupAppend(from[..n], [from[n]]);
      LinkedAll(pass, m, from[..n], order);
      LinkedFrom(pass, m, from[n], order);
      forall p | p in a ensures p !in b { assert Owner(pass, m, p).0 in from[..n]; }
      LinkedAppend(pass, m, a, b);
    }
  }

  /** All links of the three passes. */
  function ZoneLinks(m: IdMap, order: seq<ElementId>): seq<Pair> {
    AllLinkPairs(Across, m, order, order) + AllLinkPairs(ToSpots, m, order, order) + AllLinkPairs(BetweenSpots, m, order, order)
  }

  ghost predicate WithinZones(m: IdMap, pairs: seq<Pair>) {
    forall p :: p in pairs ==> p.0 in m && p.1 in m && p.0.seg == p.1.seg && (IsArea(m, p.0) || IsArea(m, p.1))
  }

  lemma PassesApart(m: IdMap, pass: Pass, a: seq<Pair>, pass': Pass, b: seq<Pair>)
    requires Tidy(m) && pass != pass' && Linked(pass, m, a) && Linked(pass', m, b)
    ensures Apart(a, b)
  {
    forall p | p in a ensures p !in b { RolesApart(m, pass, pass', p); }
  }

  lemma RolesApart(m: IdMap, pass: Pass, pass': Pass, p: Pair)
    requires Tidy(m) && pass != pass' && Role(pass, m, p) && p.0 in m && p.1 in m
    ensures !Role(pass', m, p)
  {}

  lemma ZoneLinksOnce(m: IdMap, order: seq<ElementId>)
    requires Tidy(m) && Enumerates(order, m)
    ensures NoDup(ZoneLinks(m, order)) && WithinZones(m, ZoneLinks(m, order))
  {
    var a, b, c := AllLinkPairs(Across, m, order, order), AllLinkPairs(ToSpots, m, order, order), AllLinkPairs(BetweenSpots, m, order, order);
    LinkedAll(Across, m, order, order);
    LinkedAll(ToSpots, m, order, order);
    LinkedAll(BetweenSpots, m, order, order);
    PassesApart(m, Across, a, ToSpots, b);
    PassesApart(m, Across, a, BetweenSpots, c);
    PassesApart(m, ToSpots, b, BetweenSpots, c);
    NoDupAppend(a, b);
    NoDupAppend(a + b, c);
  }

  /** A second point that is an exit or entry is linked to the first as an exit and as a point of the spot. */
  lemma SecondLinkedTwice(m: IdMap, order: seq<ElementId>, x: ElementId, y: ElementId)
    requires Coherent(m) && Enumerates(order, m) && SpotPoints(m, x, y) && (m[y].isExit || m[y].isEntry)
    ensures !NoDup(ZoneLinks(m, order))
  {
    var p := if m[y].isExit then (x, y) else (y, x);
    assert m[x].id == x && m[y].id == y && x in order && y in order;
    assert p in LinkPairs(ToSpots, At(m, y), At(m, x)) && p in LinkPairs(BetweenSpots, At(m, x), At(m, y));
    LinkMembers(ToSpots, m, order, order, p);
    LinkMembers(BetweenSpots, m, order, order, p);
    var a, b, c := AllLinkPairs(Across, m, order, order), AllLinkPairs(ToSpots, m, order, order), AllLinkPairs(BetweenSpots, m, order, order);
    assert p in a + b;
    NoDupAppend(a + b, c);
  }

  /** The links of a map never repeat a pair exactly if its spots are single and their second points unused. */
  lemma ZoneLinksExactly(m: IdMap, order: seq<ElementId>)
    requires Coherent(m) && Kinds(m) && Enumerates(order, m)
    ensures NoDup(ZoneLinks(m, order)) <==> SingleSpots(m) && SpotsUnused(m)
  {
    if !SingleSpots(m) {
      var x, y :| TwoSpots(m, x, y);
      SpotsLinkedTwice(m, order, x, y);
      NoDupAppend(AllLinkPairs(Across, m, order, order) + AllLinkPairs(ToSpots, m, order, order), AllLinkPairs(BetweenSpots, m, order, order));
    } else if !SpotsUnused(m) {
      var x, y :| SpotPoints(m, x, y) && (m[y].isExit || m[y].isEntry);
      SecondLinkedTwice(m, order, x, y);
    } else {
      ZoneLinksOnce(m, order);
    }
  }

  // ---------------------------------------------------------------- when a file joins no pair twice

  /** The pairs of the exits that make edges of their own. */
  function ExitList(f: Rndf.File): seq<Pair> { RoadExitPairs(f.segments) + ZoneExitPairs(f.zones) }

  /** The pass links the pair, from one of its ends. */
  predicate LinkedBy(pass: Pass, m: IdMap, p: Pair) {
    p in LinkPairs(pass, At(m, p.0), At(m, p.1)) || p in LinkPairs(pass, At(m, p.1), At(m, p.0))
  }

  predicate ZoneLinked(m: IdMap, p: Pair) {
    LinkedBy(Across, m, p) || LinkedBy(ToSpots, m, p) || LinkedBy(BetweenSpots, m, p)
  }

  /** Exits are listed once, repeat no edge of a lane, and join no pair that is linked within its zone. */
  ghost predicate CleanExits(m: IdMap, f: Rndf.File) {
    && NoDup(ExitList(f)) && Apart(RoadPairs(f.segments), ExitList(f))
    && forall p :: p in ExitList(f) ==> !ZoneLinked(m, p)
  }

  lemma LinkEnds(pass: Pass, m: IdMap, x: ElementId, y: ElementId, p: Pair)
    requires Coherent(m) && x in m && y in m && p in LinkPairs(pass, At(m, x), At(m, y))
    ensures p == (x, y) || p == (y, x)
  {
    assert m[x].id == x && m[y].id == y;
  }

  lemma LinkedByMember(pass: Pass, m: IdMap, order: seq<ElementId>, p: Pair)
    requires Coherent(m) && Enumerates(order, m) && p.0 in m && p.1 in m
    ensures p in AllLinkPairs(pass, m, order, order) <==> LinkedBy(pass, m, p)
  {
    LinkMembers(pass, m, order, order, p);
    assert p.0 in order && p.1 in order;
    if LinkPair(pass, m, order, order, p) {
      var x, y :| x in order && y in order && p in LinkPairs(pass, At(m, x), At(m, y));
      LinkEnds(pass, m, x, y, p);
    }
  }

  lemma LinkedIsMember(m: IdMap, order: seq<ElementId>, p: Pair)
    requires Coherent(m) && Enumerates(order, m) && p.0 in m && p.1 in m
    ensures p in ZoneLinks(m, order) <==> ZoneLinked(m, p)
  {
    LinkedByMember(Across, m, order, p);
    LinkedByMember(ToSpots, m, order, p);
    LinkedByMember(BetweenSpots, m, order, p);
  }

  /** A map that numbering the file and setting its flags has made. */
  ghost predicate MapOf(m: IdMap, f: Rndf.File) {
    SameNumbers(Indexed(Vertices(f)), m) && Distinct(Vertices(f)) && |Vertices(f)| <= INDEX_LIMIT
  }

  lemma RoadVertexNode(m: IdMap, f: Rndf.File, id: ElementId)
    requires MapOf(m, f) && IdIn(RoadVertices(f.segments), id)
    ensures id in m && !IsArea(m, id)
  {
    var v :| v in RoadVertices(f.segments) && v.id == id;
    var i :| 0 <= i < |RoadVertices(f.segments)| && RoadVertices(f.segments)[i] == v;
    assert Vertices(f)[i] == v;
    VertexNumber(Vertices(f), i);
    RoadVerticesPlain(f.segments, v);
    assert id in Indexed(Vertices(f)).Keys;
  }

  lemma {:induction false} LaneVerticesPlain(seg: int, lanes: seq<Rndf.Lane>, v: Vertex)
    requires v in LaneVertices(seg, lanes)
    ensures !v.isSpot && !v.isPerimeter
  {
    var n := |lanes| - 1;
    if v in LaneVertices(seg, lanes[..n]) { LaneVerticesPlain(seg, lanes[..n], v); }
  }

  lemma {:induction false} RoadVerticesPlain(segments: seq<Rndf.Segment>, v: Vertex)
    requires v in RoadVertices(segments)
    ensures !v.isSpot && !v.isPerimeter
  {
    var n := |segments| - 1;
    if v in RoadVertices(segments[..n]) {
      RoadVerticesPlain(segments[..n], v);
    } else {
      LaneVerticesPlain(segments[n].id, segments[n].lanes, v);
    }
  }

  lemma RoadOnce(m: IdMap, f: Rndf.File)
    requires MapOf(m, f)
    ensures NoDup(RoadPairs(f.segments))
    ensures forall p :: p in RoadPairs(f.segments) ==> p.0 in m && p.1 in m && !IsArea(m, p.0) && !IsArea(m, p.1)
  {
    DistinctParts(RoadVertices(f.segments) + ParkingVertices(f.zones), PerimeterVertices(f.zones));
    DistinctParts(RoadVertices(f.segments), ParkingVertices(f.zones));
    RoadStartsOnce(f.segments);
    forall p | p in RoadPairs(f.segments) ensures p.0 in m && p.1 in m && !IsArea(m, p.0) && !IsArea(m, p.1) {
      RoadVertexNode(m, f, p.0);
      RoadVertexNode(m, f, p.1);
    }
  }

  lemma PairParts(m: IdMap, f: Rndf.File, order: seq<ElementId>)
    ensures AllPairs(m, f, order) == RoadPairs(f.segments) + ExitList(f) + ZoneLinks(m, order)
  {}

  /** No pair is joined twice, exactly if exits are clean and zone links are. */
  lemma PairsExactly(m: IdMap, f: Rndf.File, order: seq<ElementId>)
    requires MapOf(m, f) && Coherent(m) && Kinds(m) && Enumerates(order, m) && Resolved(m, f)
    ensures NoDup(AllPairs(m, f, order)) <==> CleanExits(m, f) && SingleSpots(m) && SpotsUnused(m)
  {
    var a, b, c := RoadPairs(f.segments), ExitList(f), ZoneLinks(m, order);
    PairParts(m, f, order);
    RoadOnce(m, f);
    ExitsPresent(m, f);
    ZoneLinksExactly(m, order);
    NoDupAppend(a, b);
    NoDupAppend(a + b, c);
    forall p | p in b ensures p in c <==> ZoneLinked(m, p) { LinkedIsMember(m, order, p); }
    if SingleSpots(m) && SpotsUnused(m) { ZoneLinksOnce(m, order); }
    if CleanExits(m, f) && SingleSpots(m) && SpotsUnused(m) {
      assert Apart(a + b, c);
    }
    if NoDup(AllPairs(m, f, order)) {
      forall p | p in b ensures !ZoneLinked(m, p) { assert p in a + b; }
    }
  }

  lemma ExitsPresent(m: IdMap, f: Rndf.File)
    requires Resolved(m, f)
    ensures PairsIn(m, ExitList(f))
  {
    forall p | p in ExitList(f) ensures p.0 in m && p.1 in m {
      RoadExitMembers(f.segments, p);
      ZoneExitMembers(f.zones, p);
      if p in RoadExitPairs(f.segments) {
        var s, l, e :| s in f.segments && l in s.lanes && e in l.exits && p == (StartId(e), EndId(e));
        assert SegmentResolved(m, s) && LaneResolved(m, s.id, l) && Known(m, e);
      } else {
        var z, e :| z in f.zones && e in z.perimeter.exits && p == (StartId(e), EndId(e));
        assert ZoneResolved(m, z) && Known(m, e);
      }
    }
  }

  lemma PairsPresent(m: IdMap, f: Rndf.File, order: seq<ElementId>)
    requires MapOf(m, f) && Tidy(m) && Enumerates(order, m) && Resolved(m, f)
    ensures PairsIn(m, AllPairs(m, f, order))
  {
    RoadOnce(m, f);
    ExitsPresent(m, f);
    ZoneLinksOnce(m, order);
    PairParts(m, f, order);
  }

  lemma MapFacts(m: IdMap, f: Rndf.File)
    requires MapOf(m, f)
    ensures Injective(m) && Coherent(m) && Kinds(m)
  {
    DistinctFits(Vertices(f));
    SameSize(Indexed(Vertices(f)), m);
    IndexedNodes(Vertices(f));
    forall id | id in m ensures m[id].id == id && !(m[id].isSpot && m[id].isPerimeter) {
      assert id in Indexed(Vertices(f)).Keys;
      var i := NumberOf(Vertices(f), id);
      VertexKinds(f, i);
    }
  }

  lemma VertexKinds(f: Rndf.File, i: nat)
    requires i < |Vertices(f)|
    ensures !(Vertices(f)[i].isSpot && Vertices(f)[i].isPerimeter)
  {
    var v := Vertices(f)[i];
    var a, b, c := RoadVertices(f.segments), ParkingVertices(f.zones), PerimeterVertices(f.zones);
    if i < |a| {
      assert v == a[i];
      RoadVerticesPlain(f.segments, v);
    } else if i < |a| + |b| {
      assert v == b[i - |a|];
      ParkingVerticesKind(f.zones, v);
    } else {
      assert v == c[i - |a| - |b|];
      PerimeterVerticesKind(f.zones, v);
    }
  }

  lemma {:induction false} SpotVerticesKind(zone: int, spots: seq<Rndf.Spot>, v: Vertex)
    requires v in SpotVertices(zone, spots)
    ensures v.isSpot && !v.isPerimeter
  {
    var n := |spots| - 1;
    if v in SpotVertices(zone, spots[..n]) { SpotVerticesKind(zone, spots[..n], v); }
  }

  lemma {:induction false} ParkingVerticesKind(zones: seq<Rndf.Zone>, v: Vertex)
    requires v in ParkingVertices(zones)
    ensures v.isSpot && !v.isPerimeter
  {
    var n := |zones| - 1;
    if v in ParkingVertices(zones[..n]) {
      ParkingVerticesKind(zones[..n], v);
    } else {
      SpotVerticesKind(zones[n].id, zones[n].spots, v);
    }
  }

  lemma {:induction false} PerimeterVerticesKind(zones: seq<Rndf.Zone>, v: Vertex)
    requires v in PerimeterVertices(zones)
    ensures !v.isSpot && v.isPerimeter
  {
    var n := |zones| - 1;
    if v in PerimeterVertices(zones[..n]) { PerimeterVerticesKind(zones[..n], v); }
  }

  /**
   * No two edges of the built list have the same ends if and only if exits are listed once, repeat
   * no lane edge and no link of a zone, no zone has two spots, and no exit uses a spot's second point.
   */
  lemma DistinctExactly(m: IdMap, f: Rndf.File, order: seq<ElementId>)
    requires MapOf(m, f) && Enumerates(order, m) && Resolved(m, f)
    ensures Blockage.DistinctEnds(AllEdges(m, f, order)) <==> CleanExits(m, f) && SingleSpots(m) && SpotsUnused(m)
  {
    MapFacts(m, f);
    EdgesMatch(m, f, order);
    PairsExactly(m, f, order);
    if CleanExits(m, f) && SingleSpots(m) && SpotsUnused(m) {
      PairsPresent(m, f, order);
      DistinctIffNoDup(m, AllEdges(m, f, order), AllPairs(m, f, order));
    } else {
      RepeatedPair(m, AllEdges(m, f, order), AllPairs(m, f, order));
    }
  }
}
