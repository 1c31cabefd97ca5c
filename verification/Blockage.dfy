/** Road blockages: temporary edits of the shared edge list, and their undoing. */
module Blockage {
  import opened WayPoints
  import opened RoadGraph

  const DEFAULT_ZONE_SPEED := 3.0
  const DETOUR_DISTANCE := 100.0

  type Ends = (Index, Index)

  /** One reported blockage: the edges it blocked and the edges it added. */
  datatype Block = Block(time: real, addedBlocks: seq<Edge>, addedEdges: seq<Edge>)

  datatype State = State(edges: seq<Edge>, blocks: seq<Block>)

  function EndsOf(e: Edge): Ends { (e.start, e.end) }

  // ---------------------------------------------------------------- specification functions

  /** Clear the blocked flag of the first edge with these ends. */
  function UnblockFirst(edges: seq<Edge>, p: Ends): (r: seq<Edge>)
    ensures |r| == |edges|
  {
    if edges == [] then []
    else if EndsOf(edges[0]) == p then [edges[0].(blocked := false)] + edges[1..]
    else [edges[0]] + UnblockFirst(edges[1..], p)
  }

  /** Delete the first edge with these ends. */
  function EraseFirst(edges: seq<Edge>, p: Ends): seq<Edge> {
    if edges == [] then []
    else if EndsOf(edges[0]) == p then edges[1..]
    else [edges[0]] + EraseFirst(edges[1..], p)
  }

  function UnblockAll(edges: seq<Edge>, done: seq<Edge>): seq<Edge> {
    if done == [] then edges
    else UnblockFirst(UnblockAll(edges, done[..|done| - 1]), EndsOf(done[|done| - 1]))
  }

  function EraseAll(edges: seq<Edge>, done: seq<Edge>): seq<Edge> {
    if done == [] then edges
    else EraseFirst(EraseAll(edges, done[..|done| - 1]), EndsOf(done[|done| - 1]))
  }

  function Pop(s: State, k: nat): State
    requires k < |s.blocks|
  {
    var b := s.blocks[k];
    State(EraseAll(UnblockAll(s.edges, b.addedBlocks), b.addedEdges), s.blocks[..k] + s.blocks[k + 1..])
  }

  /** Index of the last node with the identifier, or -1. */
  function LastWithId(nodes: seq<Node>, id: ElementId): (r: int)
    ensures -1 <= r < |nodes|
    ensures r >= 0 ==> nodes[r].id == id
    ensures forall i :: r < i < |nodes| ==> nodes[i].id != id
  {
    if nodes == [] then -1
    else if nodes[|nodes| - 1].id == id then |nodes| - 1
    else LastWithId(nodes[..|nodes| - 1], id)
  }

  /** Whether add_block blocks an edge, given the blocked node and the first route edge. */
  predicate Hit(e: Edge, target: int, head: Edge) {
    e.end == target || EndsOf(e) == EndsOf(head)
  }

  function BlockHits(edges: seq<Edge>, target: int, head: Edge): (r: seq<Edge>)
    ensures |r| == |edges|
    ensures forall i :: 0 <= i < |r| ==> r[i] == if Hit(edges[i], target, head) then edges[i].(blocked := true) else edges[i]
  {
    seq(|edges|, i requires 0 <= i < |edges| =>
      if Hit(edges[i], target, head) then edges[i].(blocked := true) else edges[i])
  }

  /** The record of blocked edges; an edge that qualifies twice is recorded twice. */
  function HitRecord(edges: seq<Edge>, target: int, head: Edge): seq<Edge> {
    if edges == [] then []
    else
      var e := edges[|edges| - 1];
      HitRecord(edges[..|edges| - 1], target, head) + Hits(e, target, head)
  }

  function Hits(e: Edge, target: int, head: Edge): seq<Edge> {
    var b := e.(blocked := true);
    (if e.end == target then [b] else []) + (if EndsOf(e) == EndsOf(head) then [b] else [])
  }

  function Connected(edges: seq<Edge>, target: int, side: int): bool {
    exists e :: e in edges && e.end == target && e.start == side
  }

  function DetourEdge(start: Index, end: Index): Edge {
    Edge(start, end, DETOUR_DISTANCE, DEFAULT_ZONE_SPEED, 0.0, false, false, false)
  }

  /** The edges that add_block appends: onto the other lane, and back if the lane is connected. */
  function Detours(edges: seq<Edge>, target: Index, side: int, head: Edge): seq<Edge> {
    if 0 <= side < INDEX_LIMIT && Connected(edges, target, side)
    then [DetourEdge(head.start, target), DetourEdge(side, head.end)]
    else [DetourEdge(head.start, target)]
  }

  function Before(id: ElementId): ElementId { id.(pt := id.pt - 1) }

  /** The effect of add_block on the edges, or None when it gives up. */
  function Added(nodes: seq<Node>, edges: seq<Edge>, id: ElementId, route: seq<Edge>, time: real): Option<(seq<Edge>, Block)>
    requires |nodes| <= INDEX_LIMIT
  {
    var target, side := LastWithId(nodes, id), LastWithId(nodes, Before(id));
    if target < 0 || route == [] then None else
      var head := route[0];
      var marked := if side < 0 then edges else BlockHits(edges, target, head);
      var detours := Detours(edges, target, side, head);
      Some((marked + detours, Block(time, if side < 0 then [] else HitRecord(edges, target, head), detours)))
  }

  function Add(nodes: seq<Node>, s: State, id: ElementId, route: seq<Edge>, time: real): State
    requires |nodes| <= INDEX_LIMIT
  {
    match Added(nodes, s.edges, id, route, time)
    case None => s
    case Some((edges, block)) => State(edges, s.blocks + [block])
  }

  /**
   * A report has an effect exactly if its way-point is known and there is a route. With a way-point
   * behind it in its lane, it blocks every edge into it and every edge between the ends of the first
   * route edge, and no other; without one, nothing. The added edges are free detours into the
   * way-point, and from the one behind it if the two are joined. The block carries the time of the report.
   */
  lemma ReportBlocks(nodes: seq<Node>, edges: seq<Edge>, id: ElementId, route: seq<Edge>, time: real)
    requires |nodes| <= INDEX_LIMIT
    ensures var r := Added(nodes, edges, id, route, time);
      && (r.Some? <==> route != [] && exists n :: n in nodes && n.id == id)
      && (r.Some? ==> r.value.1.time == time && Reported(nodes, edges, id, route, r.value.0))
  {
    if LastWithId(nodes, id) >= 0 { assert nodes[LastWithId(nodes, id)] in nodes; }
  }

  ghost predicate Reported(nodes: seq<Node>, edges: seq<Edge>, id: ElementId, route: seq<Edge>, after: seq<Edge>)
    requires route != []
  {
    var target, side := LastWithId(nodes, id), LastWithId(nodes, Before(id));
    && |edges| < |after| <= |edges| + 2
    && (forall i :: 0 <= i < |edges| ==>
          after[i] == edges[i].(blocked := edges[i].blocked
            || (side >= 0 && (edges[i].end == target || (edges[i].start == route[0].start && edges[i].end == route[0].end)))))
    && (forall i :: |edges| <= i < |after| ==> !after[i].blocked && after[i].distance == DETOUR_DISTANCE)
    && after[|edges|].start == route[0].start && after[|edges|].end == target
    && (|after| == |edges| + 2 <==> side >= 0 && exists e :: e in edges && e.start == side && e.end == target)
    && (|after| == |edges| + 2 ==> after[|edges| + 1].start == side && after[|edges| + 1].end == route[0].end)
  }

  // ---------------------------------------------------------------- runs

  /** One operation: report a blockage on a route, or drop the block at a position. */
  datatype Op = AddOp(id: ElementId, route: seq<Edge>, time: real) | PopOp(k: nat)

  function Apply(nodes: seq<Node>, s: State, op: Op): State
    requires |nodes| <= INDEX_LIMIT
  {
    match op
    case AddOp(id, route, time) => Add(nodes, s, id, route, time)
    case PopOp(k) => if k < |s.blocks| then Pop(s, k) else s
  }

  /** Any interleaving of reports and removals. */
  function Run(nodes: seq<Node>, s: State, ops: seq<Op>): State
    requires |nodes| <= INDEX_LIMIT
  {
    if ops == [] then s else Apply(nodes, Run(nodes, s, ops[..|ops| - 1]), ops[|ops| - 1])
  }

  // ---------------------------------------------------------------- conservation of endpoint pairs

  function EndsList(edges: seq<Edge>): (r: seq<Ends>)
    ensures |r| == |edges| && forall i :: 0 <= i < |r| ==> r[i] == EndsOf(edges[i])
  {
    seq(|edges|, i requires 0 <= i < |edges| => EndsOf(edges[i]))
  }

  function Bag(edges: seq<Edge>): multiset<Ends> { multiset(EndsList(edges)) }

  /** Endpoint pairs that the remaining blocks have added. */
  function AddedBag(blocks: seq<Block>): multiset<Ends> {
    if blocks == [] then multiset{} else AddedBag(blocks[..|blocks| - 1]) + Bag(blocks[|blocks| - 1].addedEdges)
  }

  lemma BagConcat(a: seq<Edge>, b: seq<Edge>)
    ensures Bag(a + b) == Bag(a) + Bag(b)
  {
    assert EndsList(a + b) == EndsList(a) + EndsList(b);
  }

  lemma {:induction false} AddedBagConcat(a: seq<Block>, b: seq<Block>)
    ensures AddedBag(a + b) == AddedBag(a) + AddedBag(b)
  {
    if b == [] {
      assert a + b == a;
    } else {
      var prior, last := b[..|b| - 1], Bag(b[|b| - 1].addedEdges);
      AddedBagConcat(a, prior);
      assert (a + b)[..|a + b| - 1] == a + prior;
      assert AddedBag(a + b) == (AddedBag(a) + AddedBag(prior)) + last;
      assert AddedBag(b) == AddedBag(prior) + last;
    }
  }

  lemma BagCons(edges: seq<Edge>)
    requires edges != []
    ensures Bag(edges) == multiset{EndsOf(edges[0])} + Bag(edges[1..])
  {
    assert EndsList(edges) == [EndsOf(edges[0])] + EndsList(edges[1..]);
  }

  lemma SameEndsSameBag(a: seq<Edge>, b: seq<Edge>)
    requires |a| == |b| && forall i :: 0 <= i < |a| ==> EndsOf(a[i]) == EndsOf(b[i])
    ensures Bag(a) == Bag(b)
  {
    assert EndsList(a) == EndsList(b);
  }

  lemma {:induction false} UnblockKeepsEnds(edges: seq<Edge>, p: Ends)
    ensures forall i :: 0 <= i < |edges| ==> EndsOf(UnblockFirst(edges, p)[i]) == EndsOf(edges[i])
  {
    if edges != [] && EndsOf(edges[0]) != p {
      UnblockKeepsEnds(edges[1..], p);
    }
  }

  lemma {:induction false} UnblockAllKeepsEnds(edges: seq<Edge>, done: seq<Edge>)
    ensures |UnblockAll(edges, done)| == |edges|
    ensures forall i :: 0 <= i < |edges| ==> EndsOf(UnblockAll(edges, done)[i]) == EndsOf(edges[i])
  {
    if done != [] {
      UnblockAllKeepsEnds(edges, done[..|done| - 1]);
      UnblockKeepsEnds(UnblockAll(edges, done[..|done| - 1]), EndsOf(done[|done| - 1]));
    }
  }

  lemma {:induction false} EraseFirstBag(edges: seq<Edge>, p: Ends)
    ensures Bag(EraseFirst(edges, p)) == Bag(edges) - multiset{p}
  {
    if edges != [] {
      BagCons(edges);
      if EndsOf(edges[0]) != p {
        EraseFirstBag(edges[1..], p);
        BagCons([edges[0]] + EraseFirst(edges[1..], p));
      }
    }
  }

  lemma {:induction false} EraseAllBag(edges: seq<Edge>, done: seq<Edge>)
    ensures Bag(EraseAll(edges, done)) == Bag(edges) - Bag(done)
  {
    if done != [] {
      var before, last := done[..|done| - 1], done[|done| - 1];
      EraseAllBag(edges, before);
      BagSnoc(before, last, done);
      EraseFirstBag(EraseAll(edges, before), EndsOf(last));
      LessBoth(Bag(edges), Bag(before), EndsOf(last));
    }
  }

  lemma BagSnoc(before: seq<Edge>, last: Edge, all: seq<Edge>)
    requires all == before + [last]
    ensures Bag(all) == Bag(before) + multiset{EndsOf(last)}
  {
    assert EndsList(all) == EndsList(before) + [EndsOf(last)];
  }

  lemma LessBoth(a: multiset<Ends>, b: multiset<Ends>, p: Ends)
    ensures (a - b) - multiset{p} == a - (b + multiset{p})
  {}

  /** The edges hold the original endpoint pairs and those of the remaining blocks, no more. */
  ghost predicate Conserved(original: seq<Edge>, s: State) {
    Bag(s.edges) == Bag(original) + AddedBag(s.blocks)
  }

  lemma SwapBags(a: multiset<Ends>, b: multiset<Ends>, c: multiset<Ends>)
    ensures (a + c) + b == (a + b) + c
  {}

  lemma AddedBagSnoc(a: seq<Block>, b: Block)
    ensures AddedBag(a + [b]) == AddedBag(a) + Bag(b.addedEdges)
  {
    var s := a + [b];
    assert s[..|s| - 1] == a && s[|s| - 1] == b;
  }

  lemma AddedBagParts(a: seq<Block>, b: Block, c: seq<Block>)
    ensures AddedBag(a + [b] + c) == (AddedBag(a) + Bag(b.addedEdges)) + AddedBag(c)
  {
    AddedBagSnoc(a, b);
    AddedBagConcat(a + [b], c);
  }

  lemma SplitParts(blocks: seq<Block>, a: seq<Block>, b: Block, c: seq<Block>)
    requires blocks == a + [b] + c
    ensures AddedBag(blocks) == AddedBag(a + c) + Bag(b.addedEdges)
  {
    AddedBagParts(a, b, c);
    AddedBagConcat(a, c);
    SwapBags(AddedBag(a), AddedBag(c), Bag(b.addedEdges));
  }

  lemma CutAt(blocks: seq<Block>, k: nat)
    requires k < |blocks|
    ensures blocks == blocks[..k] + [blocks[k]] + blocks[k + 1..]
  {}

  lemma SplitBlocks(blocks: seq<Block>, k: nat)
    requires k < |blocks|
    ensures AddedBag(blocks) == AddedBag(blocks[..k] + blocks[k + 1..]) + Bag(blocks[k].addedEdges)
  {
    CutAt(blocks, k);
    SplitParts(blocks, blocks[..k], blocks[k], blocks[k + 1..]);
  }

  lemma PopConserves(original: seq<Edge>, s: State, k: nat)
    requires Conserved(original, s) && k < |s.blocks|
    ensures Conserved(original, Pop(s, k))
  {
    var b := s.blocks[k];
    var unblocked := UnblockAll(s.edges, b.addedBlocks);
    UnblockAllKeepsEnds(s.edges, b.addedBlocks);
    SameEndsSameBag(unblocked, s.edges);
    EraseAllBag(unblocked, b.addedEdges);
    SplitBlocks(s.blocks, k);
  }

  lemma AddConserves(nodes: seq<Node>, original: seq<Edge>, s: State, id: ElementId, route: seq<Edge>, time: real)
    requires |nodes| <= INDEX_LIMIT && Conserved(original, s)
    ensures Conserved(original, Add(nodes, s, id, route, time))
  {
    var r := Added(nodes, s.edges, id, route, time);
    if r.Some? {
      var (edges, block) := r.value;
      var marked := edges[..|s.edges|];
      SameEndsSameBag(marked, s.edges);
      BagConcat(marked, block.addedEdges);
      assert edges == marked + block.addedEdges;
      AddedBagConcat(s.blocks, [block]);
      assert [block][..0] == [];
      assert AddedBag([block]) == Bag(block.addedEdges);
    }
  }

  lemma ApplyConserves(nodes: seq<Node>, original: seq<Edge>, s: State, op: Op)
    requires |nodes| <= INDEX_LIMIT && Conserved(original, s)
    ensures Conserved(original, Apply(nodes, s, op))
  {
    match op
    case AddOp(id, route, time) => AddConserves(nodes, original, s, id, route, time);
    case PopOp(k) => if k < |s.blocks| { PopConserves(original, s, k); }
  }

  /** Whatever the interleaving, once no block remains the endpoint pairs are the original ones. */
  lemma {:induction false} RunConserves(nodes: seq<Node>, original: seq<Edge>, ops: seq<Op>)
    requires |nodes| <= INDEX_LIMIT
    ensures Conserved(original, Run(nodes, State(original, []), ops))
    ensures Run(nodes, State(original, []), ops).blocks == []
      ==> Bag(Run(nodes, State(original, []), ops).edges) == Bag(original)
  {
    if ops != [] {
      RunConserves(nodes, original, ops[..|ops| - 1]);
      ApplyConserves(nodes, original, Run(nodes, State(original, []), ops[..|ops| - 1]), ops[|ops| - 1]);
    }
  }

  // ---------------------------------------------------------------- exact restoration

  predicate DistinctEnds(edges: seq<Edge>) {
    forall i, j :: 0 <= i < j < |edges| ==> EndsOf(edges[i]) != EndsOf(edges[j])
  }

  predicate HasEnds(edges: seq<Edge>, p: Ends) { exists e :: e in edges && EndsOf(e) == p }

  /** Some remaining block has recorded an edge with these ends as blocked. */
  predicate Recorded(blocks: seq<Block>, p: Ends) { exists b :: b in blocks && HasEnds(b.addedBlocks, p) }

  predicate Disjoint(original: seq<Edge>, edges: seq<Edge>) {
    forall e :: e in edges ==> !HasEnds(original, EndsOf(e))
  }

  /**
   * The list is the original edges, in order, changed only in their blocked flags, followed by
   * added edges; an original edge is blocked only while some block has recorded it.
   */
  ghost predicate Restorable(original: seq<Edge>, s: State) {
    && |original| <= |s.edges|
    && (forall i :: 0 <= i < |original| ==>
          s.edges[i] == original[i].(blocked := s.edges[i].blocked)
          && (s.edges[i].blocked ==> Recorded(s.blocks, EndsOf(original[i]))))
    && Disjoint(original, s.edges[|original|..])
    && (forall b :: b in s.blocks ==> Disjoint(original, b.addedEdges))
  }

  lemma {:induction false} UnblockFirstSplit(edges: seq<Edge>, n: nat, p: Ends)
    requires n <= |edges| && DistinctEnds(edges[..n])
    ensures forall i :: 0 <= i < n ==>
      UnblockFirst(edges, p)[i] == if EndsOf(edges[i]) == p then edges[i].(blocked := false) else edges[i]
  {
    if n > 0 {
      if EndsOf(edges[0]) == p {
        forall i | 0 < i < n ensures EndsOf(edges[i]) != p {
          assert edges[..n][i] == edges[i] && edges[..n][0] == edges[0];
        }
      } else {
        assert edges[1..][..n - 1] == edges[..n][1..];
        UnblockFirstSplit(edges[1..], n - 1, p);
      }
    }
  }

  lemma {:induction false} UnblockAllSplit(edges: seq<Edge>, n: nat, done: seq<Edge>)
    requires n <= |edges| && DistinctEnds(edges[..n])
    ensures |UnblockAll(edges, done)| == |edges|
    ensures forall i :: 0 <= i < n ==>
      UnblockAll(edges, done)[i] == if HasEnds(done, EndsOf(edges[i])) then edges[i].(blocked := false) else edges[i]
  {
    if done != [] {
      var prior, d := done[..|done| - 1], done[|done| - 1];
      UnblockAllSplit(edges, n, prior);
      UnblockAllKeepsEnds(edges, prior);
      var r := UnblockAll(edges, prior);
      assert DistinctEnds(r[..n]);
      UnblockFirstSplit(r, n, EndsOf(d));
      assert done == prior + [d];
      forall p ensures HasEnds(done, p) <==> HasEnds(prior, p) || EndsOf(d) == p {
        if HasEnds(prior, p) { var e :| e in prior && EndsOf(e) == p; assert e in done; }
        assert d in done;
      }
    }
  }

  lemma {:induction false} EraseFirstSplit(edges: seq<Edge>, n: nat, p: Ends)
    requires n <= |edges| && !HasEnds(edges[..n], p)
    ensures n <= |EraseFirst(edges, p)| && EraseFirst(edges, p)[..n] == edges[..n]
    ensures forall e :: e in EraseFirst(edges, p)[n..] ==> e in edges[n..]
  {
    if n == 0 {
      EraseFirstSubset(edges, p);
    } else {
      assert edges[0] in edges[..n];
      assert edges[1..][..n - 1] == edges[..n][1..];
      EraseFirstSplit(edges[1..], n - 1, p);
      var r := EraseFirst(edges[1..], p);
      assert ([edges[0]] + r)[..n] == [edges[0]] + r[..n - 1];
      assert ([edges[0]] + r)[n..] == r[n - 1..];
      assert edges[1..][n - 1..] == edges[n..];
    }
  }

  lemma {:induction false} EraseFirstSubset(edges: seq<Edge>, p: Ends)
    ensures forall e :: e in EraseFirst(edges, p) ==> e in edges
  {
    if edges != [] && EndsOf(edges[0]) != p {
      EraseFirstSubset(edges[1..], p);
    }
  }

  lemma {:induction false} EraseAllSplit(edges: seq<Edge>, n: nat, done: seq<Edge>)
    requires n <= |edges| && forall d :: d in done ==> !HasEnds(edges[..n], EndsOf(d))
    ensures n <= |EraseAll(edges, done)| && EraseAll(edges, done)[..n] == edges[..n]
    ensures forall e :: e in EraseAll(edges, done)[n..] ==> e in edges[n..]
  {
    if done != [] {
      var prior, d := done[..|done| - 1], done[|done| - 1];
      EraseAllSplit(edges, n, prior);
      assert d in done;
      EraseFirstSplit(EraseAll(edges, prior), n, EndsOf(d));
    }
  }

  /** An unchanged list of endpoint pairs answers the same membership questions. */
  lemma SameEnds(a: seq<Edge>, b: seq<Edge>, p: Ends)
    requires |a| == |b| && forall i :: 0 <= i < |a| ==> EndsOf(a[i]) == EndsOf(b[i])
    ensures HasEnds(a, p) ==> HasEnds(b, p)
  {
    if HasEnds(a, p) {
      var e :| e in a && EndsOf(e) == p;
      var i :| 0 <= i < |a| && a[i] == e;
      assert b[i] in b;
    }
  }

  lemma PopRestorable(original: seq<Edge>, s: State, k: nat)
    requires Restorable(original, s) && DistinctEnds(original) && k < |s.blocks|
    ensures Restorable(original, Pop(s, k))
  {
    var n, b := |original|, s.blocks[k];
    assert DistinctEnds(s.edges[..n]);
    var u := UnblockAll(s.edges, b.addedBlocks);
    UnblockAllSplit(s.edges, n, b.addedBlocks);
    UnblockAllKeepsEnds(s.edges, b.addedBlocks);
    forall d | d in b.addedEdges ensures !HasEnds(u[..n], EndsOf(d)) {
      assert b in s.blocks;
      if HasEnds(u[..n], EndsOf(d)) { SameEnds(u[..n], original, EndsOf(d)); }
    }
    EraseAllSplit(u, n, b.addedEdges);
    var t := Pop(s, k);
    forall i | 0 <= i < n
      ensures t.edges[i] == original[i].(blocked := t.edges[i].blocked)
      ensures t.edges[i].blocked ==> Recorded(t.blocks, EndsOf(original[i]))
    {
      assert t.edges[i] == t.edges[..n][i] == u[..n][i] == u[i];
      if t.edges[i].blocked {
        var c :| c in s.blocks && HasEnds(c.addedBlocks, EndsOf(original[i]));
        assert c != b;
        assert c in s.blocks[..k] + s.blocks[k + 1..] by {
          var j :| 0 <= j < |s.blocks| && s.blocks[j] == c;
          assert j < k ==> c in s.blocks[..k];
          assert j > k ==> s.blocks[k + 1..][j - k - 1] == c;
        }
      }
    }
    forall e | e in t.edges[n..] ensures !HasEnds(original, EndsOf(e)) {
      assert e in u[n..];
      var j :| 0 <= j < |u[n..]| && u[n..][j] == e;
      assert s.edges[n..][j] in s.edges[n..];
      assert EndsOf(s.edges[n + j]) == EndsOf(u[n + j]);
    }
  }

  lemma {:induction false} HitsAreRecorded(edges: seq<Edge>, target: int, head: Edge, i: nat)
    requires i < |edges| && Hit(edges[i], target, head)
    ensures HasEnds(HitRecord(edges, target, head), EndsOf(edges[i]))
  {
    var e := edges[|edges| - 1];
    if i == |edges| - 1 {
      assert e.(blocked := true) in HitRecord(edges, target, head);
    } else {
      HitsAreRecorded(edges[..|edges| - 1], target, head, i);
      var f :| f in HitRecord(edges[..|edges| - 1], target, head) && EndsOf(f) == EndsOf(edges[i]);
      assert f in HitRecord(edges, target, head);
    }
  }

  lemma AddRestorable(nodes: seq<Node>, original: seq<Edge>, s: State, id: ElementId, route: seq<Edge>, time: real)
    requires |nodes| <= INDEX_LIMIT && Restorable(original, s)
    requires Added(nodes, s.edges, id, route, time).Some? ==>
               Disjoint(original, Added(nodes, s.edges, id, route, time).value.1.addedEdges)
    ensures Restorable(original, Add(nodes, s, id, route, time))
  {
    var n, r := |original|, Added(nodes, s.edges, id, route, time);
    if r.Some? {
      var (edges, block) := r.value;
      var t := Add(nodes, s, id, route, time);
      forall i | 0 <= i < n && edges[i].blocked ensures Recorded(t.blocks, EndsOf(original[i])) {
        if s.edges[i].blocked {
          var b :| b in s.blocks && HasEnds(b.addedBlocks, EndsOf(original[i]));
          assert b in t.blocks;
        } else {
          HitsAreRecorded(s.edges, LastWithId(nodes, id), route[0], i);
          assert block in t.blocks;
        }
      }
      forall e | e in edges[n..] ensures !HasEnds(original, EndsOf(e)) {
        var j :| 0 <= j < |edges[n..]| && edges[n..][j] == e;
        if n + j < |s.edges| {
          assert s.edges[n..][j] in s.edges[n..];
        } else {
          assert e in block.addedEdges;
        }
      }
    }
  }

  /** No report in the run adds an edge between the ends of an original one. */
  ghost predicate CleanRun(nodes: seq<Node>, original: seq<Edge>, s: State, ops: seq<Op>)
    requires |nodes| <= INDEX_LIMIT
  {
    forall i :: 0 <= i < |ops| && ops[i].AddOp? ==>
      var r := Added(nodes, Run(nodes, s, ops[..i]).edges, ops[i].id, ops[i].route, ops[i].time);
      r.Some? ==> Disjoint(original, r.value.1.addedEdges)
  }

  lemma {:induction false} RunRestorable(nodes: seq<Node>, original: seq<Edge>, ops: seq<Op>)
    requires |nodes| <= INDEX_LIMIT
    requires DistinctEnds(original) && forall e :: e in original ==> !e.blocked
    requires CleanRun(nodes, original, State(original, []), ops)
    ensures Restorable(original, Run(nodes, State(original, []), ops))
  {
    if ops == [] {
      assert original[|original|..] == [];
    } else {
      var init, prior, op := State(original, []), ops[..|ops| - 1], ops[|ops| - 1];
      assert forall i :: 0 <= i < |prior| ==> prior[..i] == ops[..i];
      RunRestorable(nodes, original, prior);
      var s := Run(nodes, init, prior);
      match op
      case AddOp(id, route, time) =>
        assert ops[|ops| - 1].AddOp? && ops[..|ops| - 1] == prior;
        AddRestorable(nodes, original, s, id, route, time);
      case PopOp(k) => if k < |s.blocks| { PopRestorable(original, s, k); }
    }
  }

  /** Once no block remains the list is the original one, in order and unblocked. */
  lemma RunRestores(nodes: seq<Node>, original: seq<Edge>, ops: seq<Op>)
    requires |nodes| <= INDEX_LIMIT
    requires DistinctEnds(original) && forall e :: e in original ==> !e.blocked
    requires CleanRun(nodes, original, State(original, []), ops)
    requires Run(nodes, State(original, []), ops).blocks == []
    ensures Run(nodes, State(original, []), ops).edges == original
  {
    var s := Run(nodes, State(original, []), ops);
    RunConserves(nodes, original, ops);
    RunRestorable(nodes, original, ops);
    assert |Bag(s.edges)| == |s.edges| && |Bag(original)| == |original|;
    forall i | 0 <= i < |original| ensures s.edges[i] == original[i] {
      assert original[i] in original && !s.edges[i].blocked;
    }
  }

  // ---------------------------------------------------------------- the imperative operations

  lemma {:induction false} FirstMatch(edges: seq<Edge>, p: Ends, j: nat)
    requires j < |edges| && EndsOf(edges[j]) == p && forall i :: 0 <= i < j ==> EndsOf(edges[i]) != p
    ensures UnblockFirst(edges, p) == edges[j := edges[j].(blocked := false)]
    ensures EraseFirst(edges, p) == edges[..j] + edges[j + 1..]
  {
    if j > 0 {
      FirstMatch(edges[1..], p, j - 1);
    }
  }

  lemma {:induction false} NoMatch(edges: seq<Edge>, p: Ends)
    requires forall i :: 0 <= i < |edges| ==> EndsOf(edges[i]) != p
    ensures UnblockFirst(edges, p) == edges && EraseFirst(edges, p) == edges
  {
    if edges != [] { NoMatch(edges[1..], p); }
  }

  /** The block at position k has the least time stamp, and is the first that has. */
  ghost predicate IsOldest(blocks: seq<Block>, k: nat) {
    && k < |blocks| && (forall i :: 0 <= i < |blocks| ==> blocks[k].time <= blocks[i].time)
    && (forall i :: 0 <= i < k ==> blocks[k].time < blocks[i].time)
  }

  /** The block at position k has the greatest time stamp, and is the first that has. */
  ghost predicate IsNewest(blocks: seq<Block>, k: nat) {
    && k < |blocks| && (forall i :: 0 <= i < |blocks| ==> blocks[i].time <= blocks[k].time)
    && (forall i :: 0 <= i < k ==> blocks[i].time < blocks[k].time)
  }

  class Blockages {
    const graph: Graph
    const route: Path
    var blocks: seq<Block>

    constructor (graph: Graph, route: Path)
      ensures this.graph == graph && this.route == route && blocks == []
    {
      this.graph := graph;
      this.route := route;
      blocks := [];
    }

    ghost predicate Valid() reads this, graph { graph.Valid() && |graph.nodes| <= INDEX_LIMIT }

    ghost function Contents(): State reads this, graph { State(graph.edges, blocks) }

    predicate Empty() reads this { blocks == [] }

    /** Position of the first edge with these ends, or the list length. */
    method FindEdge(p: Ends) returns (j: nat)
      requires Valid()
      ensures j <= |graph.edges| && forall i :: 0 <= i < j ==> EndsOf(graph.edges[i]) != p
      ensures j < |graph.edges| ==> EndsOf(graph.edges[j]) == p
    {
      j := 0;
      while j < graph.edgesSize
        invariant j <= |graph.edges| && forall i :: 0 <= i < j ==> EndsOf(graph.edges[i]) != p
      {
        if EndsOf(graph.edges[j]) == p { return; }
        j := j + 1;
      }
    }

    /** Undo one block: clear the flags it set, delete the edges it added. */
    method PopBlock(index: nat)
      requires Valid() && index < |blocks|
      modifies this`blocks, graph
      ensures Valid() && Contents() == Pop(old(Contents()), index)
    {
      var b := blocks[index];
      for i := 0 to |b.addedBlocks|
        invariant blocks == old(blocks) && graph.Valid()
        invariant graph.edges == UnblockAll(old(graph.edges), b.addedBlocks[..i])
      {
        assert b.addedBlocks[..i + 1][..i] == b.addedBlocks[..i];
        var p := EndsOf(b.addedBlocks[i]);
        var j := FindEdge(p);
        if j < graph.edgesSize {
          FirstMatch(graph.edges, p, j);
          graph.edges := graph.edges[j := graph.edges[j].(blocked := false)];
        } else {
          NoMatch(graph.edges, p);
        }
      }
      assert b.addedBlocks[..|b.addedBlocks|] == b.addedBlocks;
      ghost var unblocked := graph.edges;
      for i := 0 to |b.addedEdges|
        invariant blocks == old(blocks) && graph.Valid()
        invariant graph.edges == EraseAll(unblocked, b.addedEdges[..i])
      {
        assert b.addedEdges[..i + 1][..i] == b.addedEdges[..i];
        var p := EndsOf(b.addedEdges[i]);
        var j := FindEdge(p);
        if j < graph.edgesSize {
          FirstMatch(graph.edges, p, j);
          graph.edges := graph.edges[..j] + graph.edges[j + 1..];
          graph.edgesSize := graph.edgesSize - 1;
        } else {
          NoMatch(graph.edges, p);
        }
      }
      assert b.addedEdges[..|b.addedEdges|] == b.addedEdges;
      blocks := blocks[..index] + blocks[index + 1..];
    }

    /** Undo the block with the least time stamp, if there is any block. */
    method PopOldest() returns (ghost k: nat)
      requires Valid()
      modifies this`blocks, graph
      ensures Valid()
      ensures old(blocks) == [] ==> Contents() == old(Contents())
      ensures old(blocks) != [] ==> IsOldest(old(blocks), k) && Contents() == Pop(old(Contents()), k)
    {
      k := 0;
      if blocks == [] { return; }
      var index := 0;
      for i := 1 to |blocks|
        invariant 0 <= index < i
        invariant forall j :: 0 <= j < i ==> blocks[index].time <= blocks[j].time
        invariant forall j :: 0 <= j < index ==> blocks[index].time < blocks[j].time
      {
        if blocks[i].time < blocks[index].time { index := i; }
      }
      k := index;
      PopBlock(index);
    }

    /** Undo the block with the greatest time stamp, if there is any block. */
    method PopNewest() returns (ghost k: nat)
      requires Valid()
      modifies this`blocks, graph
      ensures Valid()
      ensures old(blocks) == [] ==> Contents() == old(Contents())
      ensures old(blocks) != [] ==> IsNewest(old(blocks), k) && Contents() == Pop(old(Contents()), k)
    {
      k := 0;
      if blocks == [] { return; }
      var index := 0;
      for i := 1 to |blocks|
        invariant 0 <= index < i
        invariant forall j :: 0 <= j < i ==> blocks[j].time <= blocks[index].time
        invariant forall j :: 0 <= j < index ==> blocks[j].time < blocks[index].time
      {
        if blocks[i].time > blocks[index].time { index := i; }
      }
      k := index;
      PopBlock(index);
    }

    method FindNode(id: ElementId) returns (r: int)
      ensures r == LastWithId(graph.nodes, id)
    {
      r := -1;
      for i := 0 to |graph.nodes|
        invariant r == LastWithId(graph.nodes[..i], id)
      {
        assert graph.nodes[..i + 1][..i] == graph.nodes[..i];
        if graph.nodes[i].id == id { r := i; }
      }
      assert graph.nodes[..|graph.nodes|] == graph.nodes;
    }

    /** Block the edges into the reported way-point and add detour edges onto the other lane. */
    method AddBlock(id: ElementId, now: real)
      requires Valid()
      modifies this`blocks, graph
      ensures Valid() && Contents() == Add(graph.nodes, old(Contents()), id, route.path, now)
    {
      var target := FindNode(id);
      var side := FindNode(Before(id));
      if target == -1 || route.path == [] { return; }
      var head := route.path[0];
      ghost var edges := graph.edges;
      var record, connected := [], false;
      if side != -1 {
        record, connected := MarkHits(target, side, head);
      }
      var added := [DetourEdge(head.start, target)];
      graph.edges := graph.edges + [DetourEdge(head.start, target)];
      graph.edgesSize := graph.edgesSize + 1;
      if connected {
        added := added + [DetourEdge(side, head.end)];
        graph.edges := graph.edges + [DetourEdge(side, head.end)];
        graph.edgesSize := graph.edgesSize + 1;
      }
      assert added == Detours(edges, target, side, head);
      blocks := blocks + [Block(now, record, added)];
    }

    method MarkHits(target: int, side: int, head: Edge) returns (record: seq<Edge>, connected: bool)
      requires Valid()
      modifies graph
      ensures graph.Valid() && graph.edges == BlockHits(old(graph.edges), target, head)
      ensures record == HitRecord(old(graph.edges), target, head)
      ensures connected == Connected(old(graph.edges), target, side)
    {
      ghost var was := graph.edges;
      record, connected := [], false;
      assert was[..0] == [];
      for i := 0 to graph.edgesSize
        invariant graph.Valid() && MarkedUpTo(was, graph.edges, i, target, head)
        invariant record == HitRecord(was[..i], target, head)
        invariant connected == Connected(was[..i], target, side)
      {
        MarkNext(was, graph.edges, i, target, side, head);
        var hits, beside := MarkHit(i, target, side, head);
        record := record + hits;
        connected := connected || beside;
      }
      MarkedAll(was, graph.edges, target, head);
    }

    /** Block one edge if it qualifies; it is recorded once for each reason. */
    method MarkHit(i: nat, target: int, side: int, head: Edge) returns (hits: seq<Edge>, beside: bool)
      requires Valid() && i < |graph.edges|
      modifies graph
      ensures graph.Valid()
      ensures graph.edges == old(graph.edges[i := if Hit(graph.edges[i], target, head) then graph.edges[i].(blocked := true) else graph.edges[i]])
      ensures hits == Hits(old(graph.edges[i]), target, head)
      ensures beside == (old(graph.edges[i]).end == target && old(graph.edges[i]).start == side)
    {
      var e := graph.edges[i];
      hits, beside := [], false;
      if e.end == target {
        graph.edges := graph.edges[i := graph.edges[i].(blocked := true)];
        hits := hits + [graph.edges[i]];
        if e.start == side { beside := true; }
      }
      if EndsOf(e) == EndsOf(head) {
        graph.edges := graph.edges[i := graph.edges[i].(blocked := true)];
        hits := hits + [graph.edges[i]];
      }
    }
  }

  /** The first i edges have been marked, the others not yet. */
  ghost predicate MarkedUpTo(was: seq<Edge>, edges: seq<Edge>, i: nat, target: int, head: Edge) {
    && i <= |was| == |edges|
    && edges == BlockHits(was, target, head)[..i] + was[i..]
  }

  lemma MarkNext(was: seq<Edge>, edges: seq<Edge>, i: nat, target: int, side: int, head: Edge)
    requires i < |was| && MarkedUpTo(was, edges, i, target, head)
    ensures edges[i] == was[i]
    ensures MarkedUpTo(was, edges[i := if Hit(was[i], target, head) then was[i].(blocked := true) else was[i]], i + 1, target, head)
    ensures HitRecord(was[..i + 1], target, head) == HitRecord(was[..i], target, head) + Hits(was[i], target, head)
    ensures Connected(was[..i + 1], target, side) <==>
      Connected(was[..i], target, side) || (was[i].end == target && was[i].start == side)
  {
    assert was[..i + 1][..i] == was[..i];
    assert was[..i + 1] == was[..i] + [was[i]];
    var hits := BlockHits(was, target, head);
    assert hits[..i + 1] == hits[..i] + [hits[i]];
    assert was[i..] == [was[i]] + was[i + 1..];
  }

  lemma MarkedAll(was: seq<Edge>, edges: seq<Edge>, target: int, head: Edge)
    requires MarkedUpTo(was, edges, |was|, target, head)
    ensures edges == BlockHits(was, target, head) && was[..|was|] == was
  {
  }
}
