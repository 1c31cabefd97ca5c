/** The Commander's route planning: two A* legs, retried while blockages are dropped. */
module Commanding {
  import opened WayPoints
  import opened GraphSearch
  import opened RoadGraph
  import opened Blockage

  /** The edges form a walk over one leg, as good as the search promises on this network. */
  ghost predicate GoodLeg(net: Network, metric: Metric, from: Index, leg: seq<Edge>, to: Index, limit: real) {
    && Walk(net, from, leg, to) && NoTurnAround(net, leg)
    && (EdgesJoinNodes(net) && Realistic(net, metric, limit) ==> WithinSlack(net, from, to, limit, leg))
  }

  /** The route leads from the current way-point to the goal and on to the goal after it. */
  ghost predicate GoodRoute(
      net: Network, metric: Metric, current: Index, goal: Index, goal2: Index, limit: real, route: seq<Edge>)
  {
    exists k :: 0 < k <= |route|
      && GoodLeg(net, metric, current, route[..k], goal, limit)
      && (if goal == goal2 then k == |route| else k < |route| && GoodLeg(net, metric, goal, route[k..], goal2, limit))
  }

  /** The search is trapped on one of the two legs. */
  ghost predicate NoRoute(net: Network, current: Index, goal: Index, goal2: Index) {
    Trapped(net, current, goal) || (goal != goal2 && Trapped(net, goal, goal2))
  }

  ghost predicate NoSureWalk(net: Network, from: Index, to: Index) { !exists w :: SureWalk(net, from, w, to) }

  /** Without a route, one of the legs has no walk of edges that the search always follows. */
  lemma NoRouteMeans(net: Network, current: Index, goal: Index, goal2: Index)
    requires EdgesJoinNodes(net) && current != goal && NoRoute(net, current, goal, goal2)
    ensures NoSureWalk(net, current, goal) || (goal != goal2 && NoSureWalk(net, goal, goal2))
  {
    if Trapped(net, current, goal) { TrappedHasNoWalk(net, current, goal); } else { TrappedHasNoWalk(net, goal, goal2); }
  }

  lemma TrappedHasNoWalk(net: Network, from: Index, to: Index)
    requires EdgesJoinNodes(net) && from != to && Trapped(net, from, to)
    ensures NoSureWalk(net, from, to)
  {
    if NodeAt(net.nodes, to).None? {
      UnknownGoal(net, from, to);
    } else {
      var prevs :| Encloses(net, from, to, prevs);
      forall w ensures !SureWalk(net, from, w, to) {
        if SureWalk(net, from, w, to) { TrapHolds(net, from, to, prevs, w, to); }
      }
    }
  }

  /** Search both legs; empty when either has no path. */
  method PlanLegs(net: Network, metric: Metric, current: Index, goal: Index, goal2: Index, limit: real)
    returns (planned: seq<Edge>)
    requires limit > 0.0 && current != goal
    ensures planned != [] ==> GoodRoute(net, metric, current, goal, goal2, limit, planned)
    ensures planned == [] ==> NoRoute(net, current, goal, goal2)
  {
    var leg := AStar(net, metric, current, goal, limit);
    if leg == [] { return []; }
    planned := leg;
    if goal2 != goal {
      var leg2 := AStar(net, metric, goal, goal2, limit);
      if leg2 == [] { return []; }
      planned := leg + leg2;
      assert planned[|leg|..] == leg2;
    }
    assert planned[..|leg|] == leg;
    assert GoodLeg(net, metric, current, planned[..|leg|], goal, limit);
  }

  /** What planning from a known way-point promises, given the route before it. */
  ghost predicate PlannedFrom(c: Commander, current: Index, ok: bool, wasRoute: seq<Edge>)
    reads c, c.route, c.graph, c.blockages
  {
    if ok then
      GoodRoute(c.graph.Snapshot(), c.metric, current, c.goal.index, c.goal2.index, c.limit, c.route.path)
    else
      c.route.path == wasRoute && c.blockages.blocks == []
      && NoRoute(c.graph.Snapshot(), current, c.goal.index, c.goal2.index)
  }

  /** What a planning attempt promises, given the route and edges before and after it. */
  ghost predicate Planned(
      c: Commander, current: Option<Node>, ok: bool, wasRoute: seq<Edge>, wasEdges: seq<Edge>)
    reads c, c.route, c.graph, c.blockages
  {
    if current.None? || current.value.index == c.goal.index then
      ok == current.Some? && c.route.path == wasRoute && c.graph.edges == wasEdges
    else PlannedFrom(c, current.value.index, ok, wasRoute)
  }

  /** The oldest block is dropped from a state in which there is no route. */
  ghost predicate ForcedDrop(nodes: seq<Node>, a: State, b: State, current: Index, goal: Index, goal2: Index) {
    NoRoute(Network(nodes, a.edges), current, goal, goal2) && exists k :: IsOldest(a.blocks, k) && b == Pop(a, k)
  }

  /** The states of a planning attempt: each comes from the one before by a drop that was forced. */
  ghost predicate ForcedDrops(nodes: seq<Node>, states: seq<State>, current: Index, goal: Index, goal2: Index) {
    states != [] && forall i :: 0 < i < |states| ==> ForcedAt(nodes, states, i, current, goal, goal2)
  }

  ghost predicate ForcedAt(nodes: seq<Node>, states: seq<State>, i: int, current: Index, goal: Index, goal2: Index)
    requires 0 < i < |states|
  {
    ForcedDrop(nodes, states[i - 1], states[i], current, goal, goal2)
  }

  ghost predicate Between(states: seq<State>, first: State, last: State) {
    states != [] && states[0] == first && states[|states| - 1] == last
  }

  lemma OneMoreForced(
      nodes: seq<Node>, s: State, states: seq<State>, all: seq<State>, last: State, current: Index, goal: Index, goal2: Index)
    requires states != [] && ForcedDrop(nodes, s, states[0], current, goal, goal2) && all == [s] + states
    requires ForcedDrops(nodes, states, current, goal, goal2) && Between(states, states[0], last)
    ensures ForcedDrops(nodes, all, current, goal, goal2) && Between(all, s, last)
  {
    forall i | 0 < i < |all| ensures ForcedAt(nodes, all, i, current, goal, goal2) {
      if i > 1 { assert ForcedAt(nodes, states, i - 1, current, goal, goal2); }
    }
  }

  /** The later history adds nothing but removals to the earlier one. */
  ghost predicate OnlyPops(before: seq<Op>, after: seq<Op>) {
    before <= after && forall i :: |before| <= i < |after| ==> after[i].PopOp?
  }

  lemma OnlyPopsChain(a: seq<Op>, b: seq<Op>, c: seq<Op>)
    requires OnlyPops(a, b) && OnlyPops(b, c)
    ensures OnlyPops(a, c)
  {
    forall i | |a| <= i < |c| ensures c[i].PopOp? {
      if i < |b| { assert c[i] == b[i]; }
    }
  }

  /** The blocks kept are the most recent ones: none dropped is younger than one kept. */
  ghost predicate KeepsRecent(blocks: seq<Block>, kept: seq<Block>) {
    && multiset(kept) <= multiset(blocks)
    && forall b, c :: b in multiset(blocks) - multiset(kept) && c in kept ==> b.time <= c.time
  }

  function Without(blocks: seq<Block>, k: nat): seq<Block> requires k < |blocks| { blocks[..k] + blocks[k + 1..] }

  lemma DropKeepsRecent(blocks: seq<Block>, k: nat)
    requires IsOldest(blocks, k)
    ensures KeepsRecent(blocks, Without(blocks, k))
  {
    var kept := Without(blocks, k);
    assert blocks == blocks[..k] + [blocks[k]] + blocks[k + 1..];
    assert multiset(blocks) == multiset(kept) + multiset{blocks[k]};
    forall b, c | b in multiset(blocks) - multiset(kept) && c in kept ensures b.time <= c.time {
      assert b == blocks[k];
      assert c in multiset(kept);
      assert c in multiset(blocks);
    }
  }

  lemma RecentChain(a: seq<Block>, b: seq<Block>, c: seq<Block>)
    requires KeepsRecent(a, b) && KeepsRecent(b, c)
    ensures KeepsRecent(a, c)
  {
    forall x, y | x in multiset(a) - multiset(c) && y in c ensures x.time <= y.time {
      assert y in multiset(c);
      assert y in multiset(b);
      if x !in multiset(a) - multiset(b) { assert x in multiset(b) - multiset(c); }
    }
  }

  /** What a planning attempt may drop: nothing, or what is forced to go. */
  ghost predicate DroppedOnly(c: Commander, current: Option<Node>, states: seq<State>)
    reads c
  {
    if current.None? || current.value.index == c.goal.index then |states| == 1
    else ForcedDrops(c.graph.nodes, states, current.value.index, c.goal.index, c.goal2.index)
  }

  class Commander {
    const graph: Graph
    const route: Path
    const blockages: Blockages
    const metric: Metric
    const limit: real
    var goal: Node
    var goal2: Node
    var replanNum: int
    ghost const original: seq<Edge>  // the edges before any blockage
    ghost var history: seq<Op>       // every edit made since

    constructor (graph: Graph, metric: Metric, limit: real, goal: Node, goal2: Node)
      requires graph.Valid() && |graph.nodes| <= INDEX_LIMIT && limit > 0.0
      ensures Valid() && this.graph == graph && replanNum == 0 && history == [] && original == graph.edges
      ensures fresh(route) && fresh(blockages) && route.path == []
    {
      var r := new Path();
      this.graph, this.metric, this.limit, this.goal, this.goal2 := graph, metric, limit, goal, goal2;
      this.route := r;
      this.blockages := new Blockages(graph, r);
      this.original := graph.edges;
      this.replanNum, this.history := 0, [];
    }

    ghost predicate Valid() reads this, graph, blockages {
      && limit > 0.0
      && blockages.graph == graph && blockages.route == route && blockages.Valid()
      && blockages.Contents() == Run(graph.nodes, State(original, []), history)
    }

    /**
     * Plan from the last way-point to the goal and the one after it. A failed search drops the
     * oldest blockage and tries again.
     */
    method ReplanRoute(lastWaypt: ElementId) returns (ok: bool, ghost states: seq<State>)
      requires Valid()
      modifies this`replanNum, this`history, route, graph, blockages`blocks
      ensures Valid() && replanNum == old(replanNum) + 1 && OnlyPops(old(history), history)
      ensures DroppedOnly(this, NodeWithId(graph.nodes, lastWaypt), states)
      ensures Between(states, old(blockages.Contents()), blockages.Contents())
      ensures KeepsRecent(old(blockages.blocks), blockages.blocks)
      ensures Planned(this, NodeWithId(graph.nodes, lastWaypt), ok, old(route.path), old(graph.edges))
    {
      replanNum, states := replanNum + 1, [blockages.Contents()];
      var current := NodeWithId(graph.nodes, lastWaypt);
      if current.None? { return false, states; }
      if current.value.index == goal.index { return true, states; }
      ok, states := PlanFrom(current.value.index);
    }

    /** Plan both legs; without a route, drop the oldest blockage and plan again. */
    method PlanFrom(current: Index) returns (ok: bool, ghost states: seq<State>)
      requires Valid() && current != goal.index
      modifies this`history, route, graph, blockages`blocks
      ensures Valid() && OnlyPops(old(history), history)
      ensures ForcedDrops(graph.nodes, states, current, goal.index, goal2.index)
      ensures Between(states, old(blockages.Contents()), blockages.Contents())
      ensures KeepsRecent(old(blockages.blocks), blockages.blocks)
      ensures PlannedFrom(this, current, ok, old(route.path))
      decreases |blockages.blocks|
    {
      ghost var s := blockages.Contents();
      states := [s];
      var planned := PlanLegs(graph.Snapshot(), metric, current, goal.index, goal2.index, limit);
      if planned == [] {
        if blockages.Empty() { return false, states; }
        DropOldest(current);
        ghost var t, dropped := blockages.Contents(), history;
        ok, states := PlanFrom(current);
        OnlyPopsChain(old(history), dropped, history);
        RecentChain(s.blocks, t.blocks, blockages.blocks);
        OneMoreForced(graph.nodes, s, states, [s] + states, blockages.Contents(), current, goal.index, goal2.index);
        return ok, [s] + states;
      }
      route.path := planned;
      return true, states;
    }

    /** Drop the oldest blockage, for want of a route. */
    method DropOldest(ghost current: Index)
      requires Valid() && blockages.blocks != [] && NoRoute(graph.Snapshot(), current, goal.index, goal2.index)
      modifies this`history, graph, blockages`blocks
      ensures Valid() && OnlyPops(old(history), history) && |blockages.blocks| == |old(blockages.blocks)| - 1
      ensures ForcedDrop(graph.nodes, old(blockages.Contents()), blockages.Contents(), current, goal.index, goal2.index)
      ensures KeepsRecent(old(blockages.blocks), blockages.blocks)
    {
      ghost var was := blockages.blocks;
      ghost var k := blockages.PopOldest();
      DropKeepsRecent(was, k);
      history := history + [PopOp(k)];
      assert history[..|history| - 1] == old(history);
    }

    /** Record a blockage reported by the Navigator, then plan around it. */
    method ReportBlockage(replanWaypt: ElementId, lastWaypt: ElementId, now: real) returns (ok: bool, ghost states: seq<State>)
      requires Valid()
      modifies this`replanNum, this`history, route, graph, blockages`blocks
      ensures Valid() && replanNum == old(replanNum) + 1
      ensures OnlyPops(old(history) + [AddOp(replanWaypt, old(route.path), now)], history)
      ensures DroppedOnly(this, NodeWithId(graph.nodes, lastWaypt), states)
      ensures var reported := Add(graph.nodes, old(blockages.Contents()), replanWaypt, old(route.path), now);
        && Between(states, reported, blockages.Contents()) && KeepsRecent(reported.blocks, blockages.blocks)
        && Planned(this, NodeWithId(graph.nodes, lastWaypt), ok, old(route.path), reported.edges)
    {
      blockages.AddBlock(replanWaypt, now);
      history := history + [AddOp(replanWaypt, route.path, now)];
      assert history[..|history| - 1] == old(history);
      ok, states := ReplanRoute(lastWaypt);
    }
  }

  /**
   * When planning fails for want of a path, the network it failed on is the original one:
   * no blockage can be blamed.
   */
  lemma FailureIsOnOriginalGraph(nodes: seq<Node>, original: seq<Edge>, history: seq<Op>, current: Index, goal: Index, goal2: Index)
    requires |nodes| <= INDEX_LIMIT
    requires DistinctEnds(original) && forall e :: e in original ==> !e.blocked
    requires CleanRun(nodes, original, State(original, []), history)
    requires Run(nodes, State(original, []), history).blocks == []
    requires NoRoute(Network(nodes, Run(nodes, State(original, []), history).edges), current, goal, goal2)
    ensures NoRoute(Network(nodes, original), current, goal, goal2)
  {
    RunRestores(nodes, original, history);
  }
}
