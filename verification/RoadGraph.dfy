/** The mutable road graph and the planned route, shared by the Commander's parts. */
module RoadGraph {
  import opened WayPoints

  class Graph {
    const nodes: seq<Node>
    var edges: seq<Edge>
    var edgesSize: nat  // kept beside the list, as the map code does

    constructor (nodes: seq<Node>, edges: seq<Edge>)
      ensures this.nodes == nodes && this.edges == edges && Valid()
    {
      this.nodes := nodes;
      this.edges := edges;
      edgesSize := |edges|;
    }

    ghost predicate Valid() reads this { edgesSize == |edges| }

    function Snapshot(): Network reads this { Network(nodes, edges) }
  }

  /** The edge that a default constructor makes. */
  const NULL_EDGE := Edge(0, 0, -1.0, 0.0, 0.0, false, false, false)

  /** Entry of a route, its last edge past the end, the null edge when it is empty. */
  function RouteAt(route: seq<Edge>, i: nat): Edge {
    if i < |route| then route[i] else if route != [] then route[|route| - 1] else NULL_EDGE
  }

  /** Dropping the first edge never empties the route. */
  function Popped(route: seq<Edge>): seq<Edge> { if |route| > 1 then route[1..] else route }

  class Path {
    var path: seq<Edge>

    constructor () ensures path == [] { path := []; }

    method PopFront()
      modifies this
      ensures path == Popped(old(path))
      ensures old(path) != [] ==> path != [] && path[|path| - 1] == old(path)[|old(path)| - 1]
      ensures |old(path)| > 1 ==> forall i: nat :: RouteAt(path, i) == RouteAt(old(path), i + 1)
    {
      if |path| > 1 { path := path[1..]; }
    }
  }
}
