/** What a blockage leaves behind once it is removed: exactly when the edge list is the old one. */
module Restoration {
  import opened WayPoints
  import opened RoadGraph
  import opened Blockage

  // ---------------------------------------------------------------- clearing flags

  /** No edge before position i has its ends. */
  predicate IsFirst(edges: seq<Edge>, i: nat)
    requires i < |edges|
  {
    forall k :: 0 <= k < i ==> EndsOf(edges[k]) != EndsOf(edges[i])
  }

  lemma SameFirst(a: seq<Edge>, b: seq<Edge>, i: nat)
    requires i < |a| && i < |b| && forall k :: 0 <= k <= i ==> EndsOf(a[k]) == EndsOf(b[k])
    ensures IsFirst(a, i) <==> IsFirst(b, i)
  {
    assert EndsOf(a[i]) == EndsOf(b[i]);
    if IsFirst(a, i) {
      forall k | 0 <= k < i ensures EndsOf(b[k]) != EndsOf(b[i]) { assert EndsOf(a[k]) != EndsOf(a[i]); }
    }
    if IsFirst(b, i) {
      forall k | 0 <= k < i ensures EndsOf(a[k]) != EndsOf(a[i]) { assert EndsOf(b[k]) != EndsOf(b[i]); }
    }
  }

  lemma {:induction false} UnblockFirstAt(edges: seq<Edge>, p: Ends, i: nat)
    requires i < |edges|
    ensures UnblockFirst(edges, p)[i] ==
      if IsFirst(edges, i) && EndsOf(edges[i]) == p then edges[i].(blocked := false) else edges[i]
  {
    if EndsOf(edges[0]) != p && i > 0 {
      UnblockFirstAt(edges[1..], p, i - 1);
      TailFirst(edges, i, p);
    }
  }

  lemma TailFirst(edges: seq<Edge>, i: nat, p: Ends)
    requires 0 < i < |edges| && EndsOf(edges[0]) != p
    ensures EndsOf(edges[i]) == p ==> (IsFirst(edges, i) <==> IsFirst(edges[1..], i - 1))
  {
    if IsFirst(edges, i) {
      assert forall k :: 0 <= k < i - 1 ==> edges[1..][k] == edges[k + 1];
    }
    if IsFirst(edges[1..], i - 1) && EndsOf(edges[i]) == p {
      forall k | 0 <= k < i ensures EndsOf(edges[k]) != EndsOf(edges[i]) {
        if k > 0 { assert edges[1..][k - 1] == edges[k]; }
      }
    }
  }

  /** Clearing recorded flags clears that of the first edge with recorded ends, and no other. */
  lemma {:induction false} UnblockAllAt(edges: seq<Edge>, done: seq<Edge>, i: nat)
    requires i < |edges|
    ensures |UnblockAll(edges, done)| == |edges|
    ensures UnblockAll(edges, done)[i] ==
      if IsFirst(edges, i) && HasEnds(done, EndsOf(edges[i])) then edges[i].(blocked := false) else edges[i]
  {
    UnblockAllKeepsEnds(edges, done);
    if done != [] {
      var n := |done| - 1;
      var prior, last := done[..n], done[n];
      var u := UnblockAll(edges, prior);
      UnblockAllAt(edges, prior, i);
      UnblockAllKeepsEnds(edges, prior);
      UnblockFirstAt(u, EndsOf(last), i);
      SameFirst(u, edges, i);
      RecordedEnds(done, EndsOf(edges[i]));
    }
  }

  lemma RecordedEnds(done: seq<Edge>, p: Ends)
    requires done != []
    ensures HasEnds(done, p) <==> HasEnds(done[..|done| - 1], p) || EndsOf(done[|done| - 1]) == p
  {
    var n := |done| - 1;
    assert done == done[..n] + [done[n]];
    assert done[n] in done;
  }

  lemma {:induction false} RecordIsHits(edges: seq<Edge>, target: int, head: Edge, p: Ends)
    ensures HasEnds(HitRecord(edges, target, head), p) ==> p.1 == target || p == EndsOf(head)
  {
    if edges != [] {
      var n := |edges| - 1;
      RecordIsHits(edges[..n], target, head, p);
      if HasEnds(HitRecord(edges, target, head), p) {
        var e :| e in HitRecord(edges, target, head) && EndsOf(e) == p;
        if e in HitRecord(edges[..n], target, head) {
          assert HasEnds(HitRecord(edges[..n], target, head), p);
        }
      }
    }
  }

  /** The flags after a report and its removal: a blocked edge is free again only if it is the first of its ends. */
  function Reflagged(edges: seq<Edge>, target: int, head: Edge): (r: seq<Edge>)
    ensures |r| == |edges|
    ensures forall i :: 0 <= i < |r| ==>
      r[i] == if Hit(edges[i], target, head) then edges[i].(blocked := !IsFirst(edges, i)) else edges[i]
  {
    seq(|edges|, i requires 0 <= i < |edges| =>
      if Hit(edges[i], target, head) then edges[i].(blocked := !IsFirst(edges, i)) else edges[i])
  }

  lemma ReflaggedAt(edges: seq<Edge>, target: int, head: Edge, extra: seq<Edge>, i: nat)
    requires i < |edges|
    ensures var u := UnblockAll(BlockHits(edges, target, head) + extra, HitRecord(edges, target, head));
      |u| == |edges| + |extra| && u[i] == Reflagged(edges, target, head)[i]
  {
    var x, record := BlockHits(edges, target, head) + extra, HitRecord(edges, target, head);
    UnblockAllAt(x, record, i);
    SameFirst(x, edges, i);
    if Hit(edges[i], target, head) {
      HitsAreRecorded(edges, target, head, i);
    } else {
      RecordIsHits(edges, target, head, EndsOf(edges[i]));
    }
  }

  lemma UnblockReflags(edges: seq<Edge>, target: int, head: Edge, extra: seq<Edge>)
    requires forall e :: e in extra ==> !e.blocked
    ensures UnblockAll(BlockHits(edges, target, head) + extra, HitRecord(edges, target, head)) ==
      Reflagged(edges, target, head) + extra
  {
    var x, record := BlockHits(edges, target, head) + extra, HitRecord(edges, target, head);
    UnblockAllKeepsEnds(x, record);
    var u := UnblockAll(x, record);
    forall i | 0 <= i < |x| ensures u[i] == (Reflagged(edges, target, head) + extra)[i] {
      if i < |edges| {
        ReflaggedAt(edges, target, head, extra, i);
      } else {
        UnblockAllAt(x, record, i);
        assert x[i] in extra;
      }
    }
  }

  // ---------------------------------------------------------------- erasing detours

  lemma {:induction false} EraseInFront(a: seq<Edge>, b: seq<Edge>, p: Ends)
    ensures EraseFirst(a + b, p) == if HasEnds(a, p) then EraseFirst(a, p) + b else a + EraseFirst(b, p)
  {
    if a == [] {
      assert a + b == b && [] + EraseFirst(b, p) == EraseFirst(b, p);
    } else {
      EraseInFront(a[1..], b, p);
      assert (a + b)[1..] == a[1..] + b && (a + b)[0] == a[0];
      assert a[0] in a && a == [a[0]] + a[1..];
    }
  }

  lemma EraseAllOne(edges: seq<Edge>, d: Edge)
    ensures EraseAll(edges, [d]) == EraseFirst(edges, EndsOf(d))
  {
    assert [d][..0] == [] && EraseAll(edges, []) == edges;
  }

  lemma EraseAllTwo(edges: seq<Edge>, d: Edge, e: Edge)
    ensures EraseAll(edges, [d, e]) == EraseFirst(EraseFirst(edges, EndsOf(d)), EndsOf(e))
  {
    assert [d, e][..1] == [d];
    EraseAllOne(edges, d);
  }

  /** Erasing one detour: the list before it if its ends are new, otherwise it stays behind. */
  lemma EraseOne(edges: seq<Edge>, d: Edge)
    ensures var r := EraseAll(edges + [d], [d]);
      if HasEnds(edges, EndsOf(d)) then d in r else r == edges
  {
    EraseAllOne(edges + [d], d);
    EraseInFront(edges, [d], EndsOf(d));
    assert EraseFirst([d], EndsOf(d)) == [];
  }

  lemma EraseTwo(edges: seq<Edge>, d: Edge, e: Edge)
    requires EndsOf(d) == EndsOf(e) ==> d == e
    ensures var r := EraseAll(edges + [d, e], [d, e]);
      if HasEnds(edges, EndsOf(d)) || HasEnds(edges, EndsOf(e)) then d in r || e in r else r == edges
  {
    EraseAllTwo(edges + [d, e], d, e);
    EraseInFront(edges, [d, e], EndsOf(d));
    assert EraseFirst([d, e], EndsOf(d)) == [e];
    if HasEnds(edges, EndsOf(d)) {
      EraseInFront(EraseFirst(edges, EndsOf(d)), [d, e], EndsOf(e));
      assert EraseFirst([d, e], EndsOf(e)) == if EndsOf(d) == EndsOf(e) then [e] else [d];
    } else {
      EraseInFront(edges, [e], EndsOf(e));
      assert EraseFirst([e], EndsOf(e)) == [];
    }
  }

  // ---------------------------------------------------------------- one report and its removal

  /** What a report finds: its way-point, the one before it in the lane, and the first edge of the route. */
  datatype Report = Report(target: Index, side: int, head: Edge)

  predicate IsReport(nodes: seq<Node>, id: ElementId, route: seq<Edge>, r: Report)
    requires |nodes| <= INDEX_LIMIT
  {
    LastWithId(nodes, id) == r.target && LastWithId(nodes, Before(id)) == r.side && route != [] && route[0] == r.head
  }

  function NewEdges(edges: seq<Edge>, r: Report): seq<Edge> { Detours(edges, r.target, r.side, r.head) }

  /** The list after the report has come and gone. */
  function Undone(nodes: seq<Node>, edges: seq<Edge>, id: ElementId, route: seq<Edge>, time: real): seq<Edge>
    requires |nodes| <= INDEX_LIMIT
  {
    Run(nodes, State(edges, []), [AddOp(id, route, time), PopOp(0)]).edges
  }

  /** Of the edges that the report blocks, the first one with given ends was free and the others blocked already. */
  predicate FlagsRight(edges: seq<Edge>, r: Report) {
    forall i :: 0 <= i < |edges| && Hit(edges[i], r.target, r.head) ==> edges[i].blocked == !IsFirst(edges, i)
  }

  lemma UndoneIs(nodes: seq<Node>, edges: seq<Edge>, id: ElementId, route: seq<Edge>, time: real, r: Report)
    requires |nodes| <= INDEX_LIMIT && IsReport(nodes, id, route, r)
    ensures Undone(nodes, edges, id, route, time) ==
      EraseAll((if r.side < 0 then edges else Reflagged(edges, r.target, r.head)) + NewEdges(edges, r), NewEdges(edges, r))
    ensures Run(nodes, State(edges, []), [AddOp(id, route, time), PopOp(0)]).blocks == []
  {
    var ops := [AddOp(id, route, time), PopOp(0)];
    assert ops[..1] == [ops[0]] && ops[..1][..0] == [];
    var s := Add(nodes, State(edges, []), id, route, time);
    assert Run(nodes, State(edges, []), ops[..1]) == s;
    var news := NewEdges(edges, r);
    if r.side < 0 {
      assert UnblockAll(edges + news, []) == edges + news;
    } else {
      UnblockReflags(edges, r.target, r.head, news);
    }
  }

  lemma SameFlags(edges: seq<Edge>, r: Report)
    ensures Reflagged(edges, r.target, r.head) == edges <==> FlagsRight(edges, r)
  {
    var f := Reflagged(edges, r.target, r.head);
    if f == edges {
      forall i | 0 <= i < |edges| && Hit(edges[i], r.target, r.head) ensures edges[i].blocked == !IsFirst(edges, i) {
        assert f[i] == edges[i];
      }
    }
    if FlagsRight(edges, r) {
      forall i | 0 <= i < |edges| ensures f[i] == edges[i] {}
    }
  }

  lemma ReflaggedEnds(edges: seq<Edge>, target: int, head: Edge, p: Ends)
    ensures HasEnds(Reflagged(edges, target, head), p) <==> HasEnds(edges, p)
  {
    SameEnds(Reflagged(edges, target, head), edges, p);
    SameEnds(edges, Reflagged(edges, target, head), p);
  }

  /** Erasing the detours of a report: the list before them exactly if their ends are new. */
  lemma EraseNew(list: seq<Edge>, edges: seq<Edge>, r: Report)
    requires forall p :: HasEnds(list, p) <==> HasEnds(edges, p)
    ensures var news := NewEdges(edges, r); var left := EraseAll(list + news, news);
      if Disjoint(edges, news) then left == list else exists d :: d in news && d in left
  {
    var news := NewEdges(edges, r);
    if |news| == 1 {
      assert news == [news[0]];
      EraseOne(list, news[0]);
    } else {
      assert news == [news[0], news[1]];
      EraseTwo(list, news[0], news[1]);
    }
  }

  /**
   * A report and its removal give the list back if and only if no detour repeats the ends of an
   * edge and, where the lane goes back, no edge that was free shares its ends with one before it.
   */
  lemma UndoneExactly(nodes: seq<Node>, edges: seq<Edge>, id: ElementId, route: seq<Edge>, time: real, r: Report)
    requires |nodes| <= INDEX_LIMIT && IsReport(nodes, id, route, r)
    requires forall d :: d in NewEdges(edges, r) ==> d !in edges
    ensures Undone(nodes, edges, id, route, time) == edges <==>
      Disjoint(edges, NewEdges(edges, r)) && (r.side < 0 || FlagsRight(edges, r))
  {
    var list := if r.side < 0 then edges else Reflagged(edges, r.target, r.head);
    UndoneIs(nodes, edges, id, route, time, r);
    forall p ensures HasEnds(list, p) <==> HasEnds(edges, p) { ReflaggedEnds(edges, r.target, r.head, p); }
    EraseNew(list, edges, r);
    SameFlags(edges, r);
  }

  /** For a list without blocked edges: no two edges that the report blocks may have the same ends. */
  lemma UndoneWhenFree(nodes: seq<Node>, edges: seq<Edge>, id: ElementId, route: seq<Edge>, time: real, r: Report)
    requires |nodes| <= INDEX_LIMIT && IsReport(nodes, id, route, r)
    requires (forall d :: d in NewEdges(edges, r) ==> d !in edges) && forall e :: e in edges ==> !e.blocked
    ensures Undone(nodes, edges, id, route, time) == edges <==>
      && Disjoint(edges, NewEdges(edges, r))
      && (r.side >= 0 ==> forall i :: 0 <= i < |edges| && Hit(edges[i], r.target, r.head) ==> IsFirst(edges, i))
  {
    UndoneExactly(nodes, edges, id, route, time, r);
    assert forall i :: 0 <= i < |edges| ==> edges[i] in edges;
  }

  // ---------------------------------------------------------------- an edge that stays blocked

  /** The list still begins with edges between the old ends, and the one at position j is blocked. */
  ghost predicate Stuck(original: seq<Edge>, s: State, j: nat) {
    && j < |original| <= |s.edges| && s.edges[j].blocked
    && (forall i :: 0 <= i < |original| ==> EndsOf(s.edges[i]) == EndsOf(original[i]))
    && (forall b :: b in s.blocks ==> Disjoint(original, b.addedEdges))
  }

  lemma StuckPop(original: seq<Edge>, s: State, j: nat, k: nat)
    requires Stuck(original, s, j) && !IsFirst(original, j) && k < |s.blocks|
    ensures Stuck(original, Pop(s, k), j)
  {
    var n, b := |original|, s.blocks[k];
    var u := UnblockAll(s.edges, b.addedBlocks);
    UnblockAllKeepsEnds(s.edges, b.addedBlocks);
    UnblockAllAt(s.edges, b.addedBlocks, j);
    SameFirst(s.edges, original, j);
    assert b in s.blocks;
    forall d | d in b.addedEdges ensures !HasEnds(u[..n], EndsOf(d)) {
      if HasEnds(u[..n], EndsOf(d)) { SameEnds(u[..n], original, EndsOf(d)); }
    }
    EraseAllSplit(u, n, b.addedEdges);
    var t := Pop(s, k);
    forall i | 0 <= i < n ensures t.edges[i] == u[i] {
      assert t.edges[..n][i] == u[..n][i];
    }
  }

  lemma StuckAdd(nodes: seq<Node>, original: seq<Edge>, s: State, id: ElementId, route: seq<Edge>, time: real, j: nat)
    requires |nodes| <= INDEX_LIMIT && Stuck(original, s, j)
    requires Added(nodes, s.edges, id, route, time).Some? ==>
               Disjoint(original, Added(nodes, s.edges, id, route, time).value.1.addedEdges)
    ensures Stuck(original, Add(nodes, s, id, route, time), j)
  {}

  /** The second of two edges with the same ends, once blocked without a record, is blocked for ever. */
  lemma {:induction false} StuckForEver(nodes: seq<Node>, original: seq<Edge>, s: State, ops: seq<Op>, j: nat)
    requires |nodes| <= INDEX_LIMIT && Stuck(original, s, j) && !IsFirst(original, j)
    requires CleanRun(nodes, original, s, ops)
    ensures Stuck(original, Run(nodes, s, ops), j)
    decreases |ops|
  {
    if ops != [] {
      var n := |ops| - 1;
      var prior, t := ops[..n], Run(nodes, s, ops[..n]);
      CleanBefore(nodes, original, s, ops);
      StuckForEver(nodes, original, s, prior, j);
      StuckNext(nodes, original, t, ops[n], j);
    }
  }

  /** The operation adds no edge between the ends of an original one. */
  ghost predicate CleanOp(nodes: seq<Node>, original: seq<Edge>, s: State, op: Op)
    requires |nodes| <= INDEX_LIMIT
  {
    op.AddOp? ==>
      var r := Added(nodes, s.edges, op.id, op.route, op.time); r.Some? ==> Disjoint(original, r.value.1.addedEdges)
  }

  lemma CleanBefore(nodes: seq<Node>, original: seq<Edge>, s: State, ops: seq<Op>)
    requires |nodes| <= INDEX_LIMIT && ops != [] && CleanRun(nodes, original, s, ops)
    ensures CleanRun(nodes, original, s, ops[..|ops| - 1])
    ensures CleanOp(nodes, original, Run(nodes, s, ops[..|ops| - 1]), ops[|ops| - 1])
  {
    var prior := ops[..|ops| - 1];
    assert forall i :: 0 <= i < |prior| ==> prior[..i] == ops[..i];
  }

  lemma StuckNext(nodes: seq<Node>, original: seq<Edge>, s: State, op: Op, j: nat)
    requires |nodes| <= INDEX_LIMIT && Stuck(original, s, j) && !IsFirst(original, j) && CleanOp(nodes, original, s, op)
    ensures Stuck(original, Apply(nodes, s, op), j)
  {
    match op
    case AddOp(id, route, time) => StuckAdd(nodes, original, s, id, route, time, j);
    case PopOp(k) => if k < |s.blocks| { StuckPop(original, s, j, k); }
  }

  /**
   * Two edges with the same ends, and a report on a route that begins with them, at a way-point with
   * a lane behind it and new detours: after its removal the second one is stuck.
   */
  lemma DuplicateStaysBlocked(
      nodes: seq<Node>, edges: seq<Edge>, id: ElementId, time: real, r: Report, i: nat, j: nat)
    requires |nodes| <= INDEX_LIMIT && i < j < |edges| && EndsOf(edges[i]) == EndsOf(edges[j])
    requires IsReport(nodes, id, [edges[i]], r) && r.side >= 0 && Disjoint(edges, NewEdges(edges, r))
    ensures var s := Run(nodes, State(edges, []), [AddOp(id, [edges[i]], time), PopOp(0)]);
      s.blocks == [] && Stuck(edges, s, j)
  {
    UndoneIs(nodes, edges, id, [edges[i]], time, r);
    var list := Reflagged(edges, r.target, r.head);
    forall p ensures HasEnds(list, p) <==> HasEnds(edges, p) { ReflaggedEnds(edges, r.target, r.head, p); }
    EraseNew(list, edges, r);
    ReflaggedIsStuck(edges, r, i, j);
  }

  lemma ReflaggedIsStuck(edges: seq<Edge>, r: Report, i: nat, j: nat)
    requires i < j < |edges| && EndsOf(edges[i]) == EndsOf(edges[j]) == EndsOf(r.head)
    ensures Stuck(edges, State(Reflagged(edges, r.target, r.head), []), j)
  {
    assert !IsFirst(edges, j);
  }

  // ---------------------------------------------------------------- a lane change that is lost

  function PlainNode(index: Index, lane: int, pt: int): Node {
    Node(MapXY(0.0, 0.0), ElementId(1, lane, pt), index, false, false, false, false, false)
  }

  function PlainEdge(end: Index, isImplicit: bool): Edge { Edge(0, end, 30.0, 6.0, 0.0, false, false, isImplicit) }

  /**
   * From one way-point on along the lane, or to the first way-point of the next lane. The change is
   * reported as blocked; once the report is removed, a detour of 100 m stands in its place.
   */
  lemma LaneChangeIsLost(time: real)
    ensures var nodes := [PlainNode(0, 1, 1), PlainNode(1, 1, 2), PlainNode(2, 2, 1)];
      var lane, change := PlainEdge(1, false), PlainEdge(2, true);
      Undone(nodes, [lane, change], ElementId(1, 2, 1), [change], time) == [lane, DetourEdge(0, 2)]
  {
    var nodes := [PlainNode(0, 1, 1), PlainNode(1, 1, 2), PlainNode(2, 2, 1)];
    var lane, change := PlainEdge(1, false), PlainEdge(2, true);
    var edges, id := [lane, change], ElementId(1, 2, 1);
    assert LastWithId(nodes, id) == 2;
    NoneWithId(nodes, Before(id));
    var r := Report(2, -1, change);
    UndoneIs(nodes, edges, id, [change], time, r);
    EraseAllOne(edges + [DetourEdge(0, 2)], DetourEdge(0, 2));
    FirstMatch(edges + [DetourEdge(0, 2)], (0, 2), 1);
  }

  lemma {:induction false} NoneWithId(nodes: seq<Node>, id: ElementId)
    requires forall n :: n in nodes ==> n.id != id
    ensures LastWithId(nodes, id) == -1
  {
    if nodes != [] { NoneWithId(nodes[..|nodes| - 1], id); }
  }
}
