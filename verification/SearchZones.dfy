/** A network with a zone on which the search finds no path although one may be driven. */
module SearchZones {
  import opened WayPoints
  import opened GraphSearch

  // A lane way-point, a perimeter point that is entry and exit, a spot, and a way-point beyond. The
  // perimeter point is closed from the lane, after which it must not be left for a lane; by way of
  // the spot it could be left, but it is entered only once.

  const LANE := Node(MapXY(0.0, 0.0), ElementId(1, 1, 1), 0, false, false, false, false, false)
  const GATE := Node(MapXY(1.0, 0.0), ElementId(2, 0, 1), 1, false, true, false, true, true)
  const SPOT := Node(MapXY(2.0, 0.0), ElementId(2, 1, 1), 2, false, false, true, true, true)
  const BEYOND := Node(MapXY(3.0, 0.0), ElementId(3, 1, 1), 3, false, false, false, false, false)

  const NODES := [LANE, GATE, SPOT, BEYOND]

  function Road(start: Index, end: Index, speedMax: real): Edge {
    Edge(start, end, 1.0, speedMax, 0.0, true, false, false)
  }

  const ENTER := Road(0, 1, 1.0)
  const TO_SPOT := Road(0, 2, 0.5)
  const FROM_SPOT := Road(2, 1, 1.0)
  const LEAVE := Road(1, 3, 1.0)

  const NET := Network(NODES, [ENTER, TO_SPOT, FROM_SPOT, LEAVE])

  lemma Nodes()
    ensures NodeAt(NODES, 0) == Some(LANE) && NodeAt(NODES, 1) == Some(GATE)
    ensures NodeAt(NODES, 2) == Some(SPOT) && NodeAt(NODES, 3) == Some(BEYOND)
    ensures NodeAt(NODES, NO_PREVIOUS) == None
  {
    var a, b, c := NODES[1..], NODES[2..], NODES[3..];
    assert a[1..] == b && b[1..] == c && c[1..] == [];
    assert NodeAt(c, 3) == Some(BEYOND) && NodeAt(b, 2) == Some(SPOT) && NodeAt(a, 1) == Some(GATE);
    assert NodeAt(b, 3) == NodeAt(c, 3) && NodeAt(a, 3) == NodeAt(b, 3) && NodeAt(a, 2) == NodeAt(b, 2);
    assert NodeAt(c, NO_PREVIOUS) == None && NodeAt(b, NO_PREVIOUS) == None && NodeAt(a, NO_PREVIOUS) == None;
  }

  lemma Joins()
    ensures EdgesJoinNodes(NET)
  {
    Nodes();
  }

  /** Leaving for a lane is a turn-around after the lane, and none after the spot. */
  lemma Turns()
    ensures TurnsAround(NET, 0, LEAVE) && !TurnsAround(NET, 2, LEAVE)
    ensures !TurnsAround(NET, NO_PREVIOUS, ENTER) && !TurnsAround(NET, NO_PREVIOUS, TO_SPOT) && !TurnsAround(NET, 0, FROM_SPOT)
  {
    Nodes();
  }

  lemma SeedEstimates(metric: Metric)
    ensures Seed(NET, metric, 3, 1.0, ENTER).estimate < Seed(NET, metric, 3, 1.0, TO_SPOT).estimate
  {
    Nodes();
  }

  lemma FirstIsEnter(metric: Metric, f: Edge)
    requires IsFirst(NET, metric, 0, 3, 1.0, f)
    ensures f == ENTER
  {
    Joins();
    Turns();
    assert ENTER == NET.edges[0];
    FollowsOffered(NET, 0, NO_PREVIOUS, ENTER);
    OfferedFollows(NET, 0, NO_PREVIOUS, f);
    SeedEstimates(metric);
    OutOfLane(f);
  }

  lemma OutOfLane(f: Edge)
    requires f in NET.edges && f.start == 0
    ensures f == ENTER || f == TO_SPOT
  {}

  lemma EndsWithLeave(path: seq<Edge>)
    requires Walk(NET, 0, path, 3)
    ensures |path| >= 2 && Last(path) == LEAVE && Last(Front(path)).end == 1
  {
    assert Last(path) in NET.edges;
  }

  /** No result that the search may give leads to the way-point beyond: it answers that there is none. */
  lemma NothingFound(metric: Metric, path: seq<Edge>)
    ensures !(Walk(NET, 0, path, 3) && NoTurnAround(NET, path) && Decided(NET, metric, 0, 3, 1.0, path))
  {
    if Walk(NET, 0, path, 3) && Decided(NET, metric, 0, 3, 1.0, path) {
      EndsWithLeave(path);
      var f :| IsFirst(NET, metric, 0, 3, 1.0, f) && ViaFirst(path, f);
      FirstIsEnter(metric, f);
      ThroughGate(path);
    }
  }

  lemma ThroughGate(path: seq<Edge>)
    requires |path| >= 2 && Last(path) == LEAVE && Last(Front(path)).end == 1 && ViaFirst(path, ENTER)
    ensures !NoTurnAround(NET, path)
  {
    var k := |path| - 2;
    assert path[k] == Last(Front(path));
    assert k == 0 && path[0] == ENTER;
    Turns();
    assert PreviousStart(path, 1) == 0 && path[1] == LEAVE;
  }

  /** And yet there is a walk that obeys the rule, by way of the spot. */
  lemma LegalWalk()
    ensures var w := [TO_SPOT, FROM_SPOT, LEAVE]; Walk(NET, 0, w, 3) && NoTurnAround(NET, w)
  {
    var w := [TO_SPOT, FROM_SPOT, LEAVE];
    Turns();
    assert Front(w) == [TO_SPOT, FROM_SPOT] && Front([TO_SPOT, FROM_SPOT]) == [TO_SPOT] && Front([TO_SPOT]) == [];
    assert TO_SPOT == NET.edges[1] && FROM_SPOT == NET.edges[2] && LEAVE == NET.edges[3];
    assert Walk(NET, 0, [], 0) && Walk(NET, 0, [TO_SPOT], 2) && Walk(NET, 0, [TO_SPOT, FROM_SPOT], 1);
    assert PreviousStart(w, 0) == NO_PREVIOUS && PreviousStart(w, 1) == 0 && PreviousStart(w, 2) == 2;
  }

  /** The search itself, on this network: it returns nothing. */
  method SearchMisses(metric: Metric) returns (path: seq<Edge>)
    ensures path == [] && exists w :: Walk(NET, 0, w, 3) && NoTurnAround(NET, w)
  {
    path := AStar(NET, metric, 0, 3, 1.0);
    NothingFound(metric, path);
    LegalWalk();
  }
}
