/** The edge list that the Commander blocks and restores: the built edges with the lane changes. */
module RestoredGraph {
  import opened WayPoints
  import opened RndfGraph
  import opened GraphBuilding
  import opened EdgePairs
  import opened DistinctPairs
  import opened GraphEdits
  import Restoration
  import Rndf
  import Blockage

  /** The node array of the map, up to the coordinates. */
  ghost predicate Stands(nodes: seq<Node>, m: IdMap) {
    && |nodes| <= INDEX_LIMIT
    && (forall id :: id in m ==> m[id].index < |nodes| && nodes[m[id].index].id == id)
    && (forall i :: 0 <= i < |nodes| ==> nodes[i].id in m && m[nodes[i].id].index == i)
  }

  // ---------------------------------------------------------------- lane changes are distinct

  /** Edges from nodes below n, no two with the same ends. */
  ghost predicate OnceBelow(edges: seq<Edge>, n: nat) {
    Blockage.DistinctEnds(edges) && forall e :: e in edges ==> e.start < n
  }

  /** Edges from node n, no two with the same ends. */
  ghost predicate OnceFrom(edges: seq<Edge>, n: nat) {
    Blockage.DistinctEnds(edges) && forall e :: e in edges ==> e.start == n
  }

  lemma OnceAppend(a: seq<Edge>, b: seq<Edge>, all: seq<Edge>, n: nat, m: nat)
    requires OnceBelow(a, n) && OnceFrom(b, n) && all == a + b && m == n + 1
    ensures OnceBelow(all, m)
  {
    StartsApart(a, b, n);
    DistinctAppend(a, b);
  }

  lemma {:induction false} ImplicitOnce(nodes: seq<Node>, metric: Metric, allowed: (int, int) -> bool, n: nat)
    requires n <= |nodes| <= INDEX_LIMIT
    ensures OnceBelow(ImplicitEdges(nodes, metric, allowed, n), n)
  {
    if n > 0 {
      var k := n - 1;
      var a, b, all := ImplicitEdges(nodes, metric, allowed, k), NodeChanges(nodes, metric, allowed, k), ImplicitEdges(nodes, metric, allowed, n);
      ImplicitOnce(nodes, metric, allowed, k);
      NodeOnce(nodes, metric, allowed, k);
      OnceAppend(a, b, all, k, n);
    }
  }

  lemma ImplicitAreChanges(nodes: seq<Node>, metric: Metric, allowed: (int, int) -> bool)
    requires |nodes| <= INDEX_LIMIT
    ensures forall e :: e in ImplicitEdges(nodes, metric, allowed, |nodes|) ==> LaneChange(nodes, e)
  {
    var r := ImplicitEdges(nodes, metric, allowed, |nodes|);
    ImplicitExtends(nodes, [], metric, allowed, |nodes|);
    assert [] + r == r;
  }

  lemma StartsApart(a: seq<Edge>, b: seq<Edge>, n: nat)
    requires (forall e :: e in a ==> e.start < n) && forall e :: e in b ==> e.start == n
    ensures forall i, j :: 0 <= i < |a| && 0 <= j < |b| ==> Blockage.EndsOf(a[i]) != Blockage.EndsOf(b[j])
  {
    forall i, j | 0 <= i < |a| && 0 <= j < |b| ensures Blockage.EndsOf(a[i]) != Blockage.EndsOf(b[j]) {
      assert a[i] in a && b[j] in b;
    }
  }

  lemma NodeOnce(nodes: seq<Node>, metric: Metric, allowed: (int, int) -> bool, i: nat)
    requires i < |nodes| <= INDEX_LIMIT
    ensures OnceFrom(NodeChanges(nodes, metric, allowed, i), i)
  {
    LeftChoiceMeans(nodes, metric, i, |nodes|);
    RightSearchMeans(nodes, metric, i, |nodes|);
    var l, r := LeftChoice(nodes, metric, i, |nodes|), RightSearch(nodes, metric, i, |nodes|);
    assert l >= 0 ==> Beside(nodes, i, l, -1);
    assert r >= 0 ==> Beside(nodes, i, r, 1);
  }

  lemma DistinctAppend(a: seq<Edge>, b: seq<Edge>)
    ensures Blockage.DistinctEnds(a + b) <==>
      && Blockage.DistinctEnds(a) && Blockage.DistinctEnds(b)
      && forall i, j :: 0 <= i < |a| && 0 <= j < |b| ==> Blockage.EndsOf(a[i]) != Blockage.EndsOf(b[j])
  {
    var s := a + b;
    if Blockage.DistinctEnds(s) {
      forall i, j | 0 <= i < j < |b| ensures Blockage.EndsOf(b[i]) != Blockage.EndsOf(b[j]) {
        assert s[|a| + i] == b[i] && s[|a| + j] == b[j];
      }
      forall i, j | 0 <= i < |a| && 0 <= j < |b| ensures Blockage.EndsOf(a[i]) != Blockage.EndsOf(b[j]) {
        assert s[i] == a[i] && s[|a| + j] == b[j];
      }
      forall i, j | 0 <= i < j < |a| ensures Blockage.EndsOf(a[i]) != Blockage.EndsOf(a[j]) {
        assert s[i] == a[i] && s[j] == a[j];
      }
    }
  }

  // ---------------------------------------------------------------- lane changes and the built edges

  /** The way-points that an edge joins. */
  function PairOf(nodes: seq<Node>, e: Edge): Pair
    requires e.start < |nodes| && e.end < |nodes|
  {
    (nodes[e.start].id, nodes[e.end].id)
  }

  /** No exit and no link of a zone leads where the lane change leads. */
  ghost predicate IsNew(m: IdMap, f: Rndf.File, p: Pair) { p !in ExitList(f) && !ZoneLinked(m, p) }

  lemma NoLaneEdge(f: Rndf.File, nodes: seq<Node>, e: Edge)
    requires LaneChange(nodes, e)
    ensures PairOf(nodes, e) !in RoadPairs(f.segments)
  {
    RoadMembers(f.segments, PairOf(nodes, e));
  }

  /** A lane change has the ends of a built edge exactly if an exit or a link of a zone does. */
  lemma ChangeIsNew(m: IdMap, f: Rndf.File, order: seq<ElementId>, nodes: seq<Node>, e: Edge)
    requires Coherent(m) && Injective(m) && Enumerates(order, m) && Stands(nodes, m) && LaneChange(nodes, e)
    requires PairsIn(m, AllPairs(m, f, order))
    ensures Blockage.HasEnds(AllEdges(m, f, order), Blockage.EndsOf(e)) <==> !IsNew(m, f, PairOf(nodes, e))
  {
    var p := PairOf(nodes, e);
    EdgeExists(m, f, order, Blockage.EndsOf(e));
    NoLaneEdge(f, nodes, e);
    PairParts(m, f, order);
    LinkedIsMember(m, order, p);
    assert At(m, p.0).index == e.start && At(m, p.1).index == e.end;
    forall q | q in AllPairs(m, f, order) && Blockage.EndsOf(e) == (At(m, q.0).index, At(m, q.1).index) ensures q == p {}
  }

  /** The edges that the Commander starts with. */
  function FullList(
      m: IdMap, f: Rndf.File, order: seq<ElementId>, nodes: seq<Node>, metric: Metric, allowed: (int, int) -> bool): seq<Edge>
    requires |nodes| <= INDEX_LIMIT
  {
    AllEdges(m, f, order) + ImplicitEdges(nodes, metric, allowed, |nodes|)
  }

  ghost predicate ChangesNew(
      m: IdMap, f: Rndf.File, nodes: seq<Node>, metric: Metric, allowed: (int, int) -> bool)
    requires |nodes| <= INDEX_LIMIT
  {
    forall e :: e in ImplicitEdges(nodes, metric, allowed, |nodes|) && e.start < |nodes| && e.end < |nodes| ==>
      IsNew(m, f, PairOf(nodes, e))
  }

  lemma Apartness(a: seq<Edge>, b: seq<Edge>)
    ensures (forall i, j :: 0 <= i < |a| && 0 <= j < |b| ==> Blockage.EndsOf(a[i]) != Blockage.EndsOf(b[j])) <==>
      forall e :: e in b ==> !Blockage.HasEnds(a, Blockage.EndsOf(e))
  {
    if forall i, j :: 0 <= i < |a| && 0 <= j < |b| ==> Blockage.EndsOf(a[i]) != Blockage.EndsOf(b[j]) {
      forall e | e in b ensures !Blockage.HasEnds(a, Blockage.EndsOf(e)) {
        var j :| 0 <= j < |b| && b[j] == e;
      }
    }
    if forall e :: e in b ==> !Blockage.HasEnds(a, Blockage.EndsOf(e)) {
      forall i, j | 0 <= i < |a| && 0 <= j < |b| ensures Blockage.EndsOf(a[i]) != Blockage.EndsOf(b[j]) {
        assert a[i] in a && b[j] in b;
      }
    }
  }

  /**
   * With the lane changes: no two edges have the same ends if and only if the built ones have not
   * and no exit and no link of a zone leads where a lane change leads.
   */
  lemma FullDistinctExactly(
      m: IdMap, f: Rndf.File, order: seq<ElementId>, nodes: seq<Node>, metric: Metric, allowed: (int, int) -> bool)
    requires MapOf(m, f) && Enumerates(order, m) && Resolved(m, f) && Stands(nodes, m)
    ensures Blockage.DistinctEnds(FullList(m, f, order, nodes, metric, allowed)) <==>
      CleanExits(m, f) && SingleSpots(m) && SpotsUnused(m) && ChangesNew(m, f, nodes, metric, allowed)
  {
    var a, b := AllEdges(m, f, order), ImplicitEdges(nodes, metric, allowed, |nodes|);
    DistinctExactly(m, f, order);
    ImplicitOnce(nodes, metric, allowed, |nodes|);
    ImplicitAreChanges(nodes, metric, allowed);
    DistinctAppend(a, b);
    Apartness(a, b);
    if CleanExits(m, f) && SingleSpots(m) && SpotsUnused(m) {
      MapFacts(m, f);
      PairsPresent(m, f, order);
      forall e | e in b ensures Blockage.HasEnds(a, Blockage.EndsOf(e)) <==> !IsNew(m, f, PairOf(nodes, e)) {
        ChangeIsNew(m, f, order, nodes, e);
      }
    }
  }

  // ---------------------------------------------------------------- restoration

  /** The same edges, with lengths and speeds filled in. */
  ghost predicate SameShape(edges: seq<Edge>, list: seq<Edge>) {
    && |edges| == |list|
    && forall i :: 0 <= i < |list| ==> Blockage.EndsOf(edges[i]) == Blockage.EndsOf(list[i]) && edges[i].blocked == list[i].blocked
  }

  lemma FullIsFree(
      m: IdMap, f: Rndf.File, order: seq<ElementId>, nodes: seq<Node>, metric: Metric, allowed: (int, int) -> bool)
    requires Coherent(m) && Enumerates(order, m) && |nodes| <= INDEX_LIMIT
    ensures forall e :: e in FullList(m, f, order, nodes, metric, allowed) ==> !e.blocked
  {
    EdgesMatch(m, f, order);
    ImplicitAreChanges(nodes, metric, allowed);
  }

  /**
   * The whole list of the Commander: if its pairs are distinct, every run of reports and removals
   * whose detours are new leaves it as it was, in order and free, once no block remains.
   */
  lemma BuiltGraphRestores(
      m: IdMap, f: Rndf.File, order: seq<ElementId>, nodes: seq<Node>, metric: Metric, allowed: (int, int) -> bool,
      edges: seq<Edge>, ops: seq<Blockage.Op>)
    requires MapOf(m, f) && Enumerates(order, m) && Resolved(m, f) && Stands(nodes, m)
    requires CleanExits(m, f) && SingleSpots(m) && SpotsUnused(m) && ChangesNew(m, f, nodes, metric, allowed)
    requires SameShape(edges, FullList(m, f, order, nodes, metric, allowed))
    requires Blockage.CleanRun(nodes, edges, Blockage.State(edges, []), ops)
    requires Blockage.Run(nodes, Blockage.State(edges, []), ops).blocks == []
    ensures Blockage.Run(nodes, Blockage.State(edges, []), ops).edges == edges
  {
    var list := FullList(m, f, order, nodes, metric, allowed);
    FullDistinctExactly(m, f, order, nodes, metric, allowed);
    MapFacts(m, f);
    FullIsFree(m, f, order, nodes, metric, allowed);
    ShapeIsDistinct(edges, list);
    Blockage.RunRestores(nodes, edges, ops);
  }

  lemma ShapeIsDistinct(edges: seq<Edge>, list: seq<Edge>)
    requires SameShape(edges, list) && Blockage.DistinctEnds(list) && forall e :: e in list ==> !e.blocked
    ensures Blockage.DistinctEnds(edges) && forall e :: e in edges ==> !e.blocked
  {
    forall i | 0 <= i < |edges| ensures !edges[i].blocked { assert list[i] in list; }
  }

  /**
   * Two spots of a zone: the list has a second edge between the same ends, which a report on a route
   * that begins with the first one leaves blocked, if a lane leads to its way-point and its detours are new.
   */
  lemma SpotEdgeStaysBlocked(
      m: IdMap, f: Rndf.File, order: seq<ElementId>, nodes: seq<Node>, metric: Metric, allowed: (int, int) -> bool,
      edges: seq<Edge>, x: ElementId, y: ElementId) returns (i: nat, j: nat)
    requires Coherent(m) && Enumerates(order, m) && TwoSpots(m, x, y) && |nodes| <= INDEX_LIMIT
    requires SameShape(edges, FullList(m, f, order, nodes, metric, allowed))
    ensures i < j < |edges| && Blockage.EndsOf(edges[i]) == Blockage.EndsOf(edges[j])
    ensures forall id, time, r ::
      Restoration.IsReport(nodes, id, [edges[i]], r) && r.side >= 0
      && Blockage.Disjoint(edges, Restoration.NewEdges(edges, r)) ==>
        var s := Blockage.Run(nodes, Blockage.State(edges, []), [Blockage.AddOp(id, [edges[i]], time), Blockage.PopOp(0)]);
        s.blocks == [] && Restoration.Stuck(edges, s, j)
  {
    SpotsJoinedTwice(m, f, order, x, y);
    var a := AllEdges(m, f, order);
    i, j :| 0 <= i < j < |a| && Blockage.EndsOf(a[i]) == Blockage.EndsOf(a[j]);
    var list := FullList(m, f, order, nodes, metric, allowed);
    assert list[i] == a[i] && list[j] == a[j];
    forall id, time, r | Restoration.IsReport(nodes, id, [edges[i]], r) && r.side >= 0
      && Blockage.Disjoint(edges, Restoration.NewEdges(edges, r))
      ensures var s := Blockage.Run(nodes, Blockage.State(edges, []), [Blockage.AddOp(id, [edges[i]], time), Blockage.PopOp(0)]);
        s.blocks == [] && Restoration.Stuck(edges, s, j)
    {
      Restoration.DuplicateStaysBlocked(nodes, edges, id, time, r, i, j);
    }
  }
}
