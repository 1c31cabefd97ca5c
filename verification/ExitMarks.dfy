/** Which edges of a built graph are marked as exits. */
module ExitMarks {
  import opened WayPoints
  import opened RndfGraph
  import opened GraphBuilding
  import opened EdgePairs
  import Rndf
  import Blockage

  /** An edge with these ends is marked as an exit. */
  ghost predicate MarkedExit(edges: seq<Edge>, ends: Blockage.Ends) {
    exists i :: 0 <= i < |edges| && Blockage.EndsOf(edges[i]) == ends && edges[i].isExit
  }

  /** The exit joins the nodes with these indices. */
  predicate ExitJoins(m: IdMap, e: Rndf.Exit, ends: Blockage.Ends) {
    ends == (At(m, StartId(e)).index, At(m, EndId(e)).index)
  }

  /** An exit to the next way-point needs an edge to mark. */
  ghost predicate MarksExit(m: IdMap, edges: seq<Edge>, e: Rndf.Exit, ends: Blockage.Ends) {
    ExitJoins(m, e, ends) && (IsNext(StartId(e), EndId(e)) ==> Blockage.HasEnds(edges, ends))
  }

  ghost predicate ExitAsked(m: IdMap, edges: seq<Edge>, exits: seq<Rndf.Exit>, ends: Blockage.Ends) {
    exists i :: 0 <= i < |exits| && MarksExit(m, edges, exits[i], ends)
  }

  lemma {:induction false} FirstIsMarked(edges: seq<Edge>, start: int, end: int, ends: Blockage.Ends)
    ensures MarkedExit(MarkFirst(edges, start, end), ends) <==>
      MarkedExit(edges, ends) || (ends == (start, end) && Blockage.HasEnds(edges, ends))
  {
    if edges != [] {
      var rest := MarkFirst(edges[1..], start, end);
      FirstIsMarked(edges[1..], start, end, ends);
      MarkedFirst(edges, ends);
      HasEndsFirst(edges, ends);
      MarkedFirst(MarkFirst(edges, start, end), ends);
      if edges[0].start == start && edges[0].end == end {
        assert MarkFirst(edges, start, end)[1..] == edges[1..];
      } else {
        assert MarkFirst(edges, start, end)[1..] == rest;
      }
    }
  }

  lemma MarkedFirst(edges: seq<Edge>, ends: Blockage.Ends)
    requires edges != []
    ensures MarkedExit(edges, ends) <==> (Blockage.EndsOf(edges[0]) == ends && edges[0].isExit) || MarkedExit(edges[1..], ends)
  {
    var rest := edges[1..];
    if i :| 0 <= i < |rest| && Blockage.EndsOf(rest[i]) == ends && rest[i].isExit {
      assert edges[i + 1] == rest[i];
    }
    if i :| 0 <= i < |edges| && Blockage.EndsOf(edges[i]) == ends && edges[i].isExit {
      if i > 0 { assert rest[i - 1] == edges[i]; }
    }
  }

  lemma HasEndsFirst(edges: seq<Edge>, ends: Blockage.Ends)
    requires edges != []
    ensures Blockage.HasEnds(edges, ends) <==> Blockage.EndsOf(edges[0]) == ends || Blockage.HasEnds(edges[1..], ends)
  {
    assert edges == [edges[0]] + edges[1..];
  }

  lemma MarkedAppend(a: seq<Edge>, b: seq<Edge>, ends: Blockage.Ends)
    ensures MarkedExit(a + b, ends) <==> MarkedExit(a, ends) || MarkedExit(b, ends)
  {
    var c := a + b;
    if i :| 0 <= i < |a| && Blockage.EndsOf(a[i]) == ends && a[i].isExit { assert c[i] == a[i]; }
    if i :| 0 <= i < |b| && Blockage.EndsOf(b[i]) == ends && b[i].isExit { assert c[|a| + i] == b[i]; }
  }

  lemma AskedLast(m: IdMap, edges: seq<Edge>, exits: seq<Rndf.Exit>, ends: Blockage.Ends)
    requires exits != []
    ensures var n := |exits| - 1;
      ExitAsked(m, edges, exits, ends) <==> ExitAsked(m, edges, exits[..n], ends) || MarksExit(m, edges, exits[n], ends)
  {
    var n := |exits| - 1;
    var before := exits[..n];
    if i :| 0 <= i < |before| && MarksExit(m, edges, before[i], ends) { assert exits[i] == before[i]; }
    if i :| 0 <= i < |exits| && MarksExit(m, edges, exits[i], ends) {
      if i < n { assert before[i] == exits[i]; }
    }
  }

  /** Edges that exits add carry the mark already. */
  lemma {:induction false} NewEndsAreMarked(m: IdMap, edges: seq<Edge>, exits: seq<Rndf.Exit>, ends: Blockage.Ends)
    requires Blockage.HasEnds(WithExits(m, edges, exits), ends)
    ensures Blockage.HasEnds(edges, ends) || MarkedExit(WithExits(m, edges, exits), ends)
    decreases |exits|
  {
    if exits != [] {
      var n := |exits| - 1;
      var e, before := exits[n], WithExits(m, edges, exits[..n]);
      var x, y := At(m, StartId(e)), At(m, EndId(e));
      if IsNext(StartId(e), EndId(e)) {
        MarkKeepsEnds(before, x.index, y.index);
        assert Blockage.HasEnds(before, ends);
        NewEndsAreMarked(m, edges, exits[..n], ends);
        FirstIsMarked(before, x.index, y.index, ends);
      } else {
        var added := [EdgeBetween(x, y, true)];
        MarkedAppend(before, added, ends);
        if Blockage.HasEnds(before, ends) {
          NewEndsAreMarked(m, edges, exits[..n], ends);
        } else {
          assert Blockage.EndsOf(added[0]) == ends && added[0].isExit;
        }
      }
    }
  }

  /** Which edges the exits of a list mark or add. */
  lemma {:induction false} ExitsMark(m: IdMap, edges: seq<Edge>, exits: seq<Rndf.Exit>, ends: Blockage.Ends)
    ensures MarkedExit(WithExits(m, edges, exits), ends) <==> MarkedExit(edges, ends) || ExitAsked(m, edges, exits, ends)
    decreases |exits|
  {
    if exits != [] {
      var n := |exits| - 1;
      var e, before := exits[n], WithExits(m, edges, exits[..n]);
      ExitsMark(m, edges, exits[..n], ends);
      AskedLast(m, edges, exits, ends);
      OneMoreMarks(m, before, e, ends);
      if Blockage.HasEnds(before, ends) { NewEndsAreMarked(m, edges, exits[..n], ends); }
      if Blockage.HasEnds(edges, ends) { EndsStay(m, edges, exits[..n], ends); }
    }
  }

  lemma OneMoreMarks(m: IdMap, edges: seq<Edge>, e: Rndf.Exit, ends: Blockage.Ends)
    ensures MarkedExit(WithExit(m, edges, e), ends) <==> MarkedExit(edges, ends) || MarksExit(m, edges, e, ends)
  {
    var x, y := At(m, StartId(e)), At(m, EndId(e));
    if IsNext(StartId(e), EndId(e)) {
      FirstIsMarked(edges, x.index, y.index, ends);
    } else {
      var added := [EdgeBetween(x, y, true)];
      MarkedAppend(edges, added, ends);
      assert Blockage.EndsOf(added[0]) == (x.index, y.index) && added[0].isExit;
    }
  }

  lemma {:induction false} EndsStay(m: IdMap, edges: seq<Edge>, exits: seq<Rndf.Exit>, ends: Blockage.Ends)
    requires Blockage.HasEnds(edges, ends)
    ensures Blockage.HasEnds(WithExits(m, edges, exits), ends)
    decreases |exits|
  {
    if exits != [] {
      var n := |exits| - 1;
      var e, before := exits[n], WithExits(m, edges, exits[..n]);
      EndsStay(m, edges, exits[..n], ends);
      if IsNext(StartId(e), EndId(e)) {
        var start, end := At(m, StartId(e)).index, At(m, EndId(e)).index;
        MarkKeepsEnds(before, start, end);
        var i :| 0 <= i < |before| && Blockage.EndsOf(before[i]) == ends;
        assert Blockage.EndsOf(MarkFirst(before, start, end)[i]) == ends;
      }
    }
  }

  // ---------------------------------------------------------------- all exits of the road, one after the other

  lemma {:induction false} ExitsAppend(m: IdMap, edges: seq<Edge>, a: seq<Rndf.Exit>, b: seq<Rndf.Exit>)
    ensures WithExits(m, edges, a + b) == WithExits(m, WithExits(m, edges, a), b)
    decreases |b|
  {
    if b == [] {
      assert a + b == a;
    } else {
      var n := |b| - 1;
      ExitsAppend(m, edges, a, b[..n]);
      assert (a + b)[..|a + b| - 1] == a + b[..n] && (a + b)[|a + b| - 1] == b[n];
    }
  }

  lemma {:induction false} LaneExitsAreList(m: IdMap, edges: seq<Edge>, lanes: seq<Rndf.Lane>)
    ensures WithLaneExits(m, edges, lanes) == WithExits(m, edges, LaneExits(lanes))
  {
    if lanes != [] {
      var n := |lanes| - 1;
      LaneExitsAreList(m, edges, lanes[..n]);
      ExitsAppend(m, edges, LaneExits(lanes[..n]), lanes[n].exits);
    }
  }

  lemma {:induction false} RoadExitsAreList(m: IdMap, edges: seq<Edge>, segments: seq<Rndf.Segment>)
    ensures WithRoadExits(m, edges, segments) == WithExits(m, edges, RoadExits(segments))
  {
    if segments != [] {
      var n := |segments| - 1;
      RoadExitsAreList(m, edges, segments[..n]);
      LaneExitsAreList(m, WithRoadExits(m, edges, segments[..n]), segments[n].lanes);
      ExitsAppend(m, edges, RoadExits(segments[..n]), LaneExits(segments[n].lanes));
    }
  }

  // ---------------------------------------------------------------- lanes and links have no marks of their own

  ghost predicate Unmarked(edges: seq<Edge>) { forall i :: 0 <= i < |edges| ==> !edges[i].isExit }

  lemma {:induction false} LanesUnmarked(m: IdMap, seg: int, lanes: seq<Rndf.Lane>)
    ensures Unmarked(LanesEdges(m, seg, lanes))
  {
    if lanes != [] { LanesUnmarked(m, seg, lanes[..|lanes| - 1]); }
  }

  lemma {:induction false} RoadUnmarked(m: IdMap, segments: seq<Rndf.Segment>)
    ensures Unmarked(RoadEdges(m, segments))
  {
    if segments != [] {
      var n := |segments| - 1;
      RoadUnmarked(m, segments[..n]);
      LanesUnmarked(m, segments[n].id, segments[n].lanes);
    }
  }

  lemma {:induction false} LinksFromUnmarked(pass: Pass, m: IdMap, a: Node, order: seq<ElementId>)
    ensures Unmarked(LinksFrom(pass, m, a, order))
  {
    if order != [] { LinksFromUnmarked(pass, m, a, order[..|order| - 1]); }
  }

  lemma {:induction false} LinksUnmarked(pass: Pass, m: IdMap, from: seq<ElementId>, order: seq<ElementId>)
    ensures Unmarked(AllLinks(pass, m, from, order))
  {
    if from != [] {
      var n := |from| - 1;
      LinksUnmarked(pass, m, from[..n], order);
      LinksFromUnmarked(pass, m, At(m, from[n]), order);
    }
  }

  lemma {:induction false} ZoneExitsAreList(m: IdMap, zones: seq<Rndf.Zone>)
    ensures ZoneExitEdges(m, zones) == ExitEdges(m, ZoneExits(zones))
  {
    if zones != [] {
      var n := |zones| - 1;
      ZoneExitsAreList(m, zones[..n]);
      var a, b := ZoneExits(zones[..n]), zones[n].perimeter.exits;
      assert ExitEdges(m, a + b) == ExitEdges(m, a) + ExitEdges(m, b);
    }
  }

  ghost predicate ZoneExitAsked(m: IdMap, exits: seq<Rndf.Exit>, ends: Blockage.Ends) {
    exists i :: 0 <= i < |exits| && ExitJoins(m, exits[i], ends)
  }

  lemma ZoneExitsMark(m: IdMap, exits: seq<Rndf.Exit>, ends: Blockage.Ends)
    ensures MarkedExit(ExitEdges(m, exits), ends) <==> ZoneExitAsked(m, exits, ends)
  {
    var edges := ExitEdges(m, exits);
    if i :| 0 <= i < |exits| && ExitJoins(m, exits[i], ends) {
      assert Blockage.EndsOf(edges[i]) == ends && edges[i].isExit;
    }
    if i :| 0 <= i < |edges| && Blockage.EndsOf(edges[i]) == ends && edges[i].isExit {
      assert ExitJoins(m, exits[i], ends);
    }
  }

  /**
   * In the graph of a file, two nodes are joined by an edge that is marked as an exit if and only if
   * an exit of a zone joins them, or an exit of a lane does; but an exit to the next way-point only
   * marks an edge that the lanes have made.
   */
  lemma ExitsExactly(m: IdMap, f: Rndf.File, order: seq<ElementId>, ends: Blockage.Ends)
    ensures MarkedExit(AllEdges(m, f, order), ends) <==>
      ExitAsked(m, RoadEdges(m, f.segments), RoadExits(f.segments), ends) || ZoneExitAsked(m, ZoneExits(f.zones), ends)
  {
    var road := RoadEdges(m, f.segments);
    var e1, e2 := WithRoadExits(m, road, f.segments), ZoneExitEdges(m, f.zones);
    var e3, e4, e5 := AllLinks(Across, m, order, order), AllLinks(ToSpots, m, order, order), AllLinks(BetweenSpots, m, order, order);
    RoadUnmarked(m, f.segments);
    RoadExitsAreList(m, road, f.segments);
    ExitsMark(m, road, RoadExits(f.segments), ends);
    ZoneExitsAreList(m, f.zones);
    ZoneExitsMark(m, ZoneExits(f.zones), ends);
    LinksUnmarked(Across, m, order, order);
    LinksUnmarked(ToSpots, m, order, order);
    LinksUnmarked(BetweenSpots, m, order, order);
    MarkedAppend(e1, e2, ends);
    MarkedAppend(e1 + e2, e3, ends);
    MarkedAppend(e1 + e2 + e3, e4, ends);
    MarkedAppend(e1 + e2 + e3 + e4, e5, ends);
  }
}
