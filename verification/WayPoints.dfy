/** Way-point graph values shared by the map, Commander and Navigator models. */
module WayPoints {

  datatype Option<+T> = None | Some(value: T)

  /** Way-point indices are 16-bit unsigned in the map types. */
  const INDEX_LIMIT := 0x1_0000
  type Index = i: int | 0 <= i < INDEX_LIMIT

  /** RNDF identifier: segment (or zone), lane (or spot, 0 for a perimeter), point. */
  datatype ElementId = ElementId(seg: int, lane: int, pt: int)

  /** A 16-bit signed number: what is left of an int when it is stored in an identifier. */
  function Short(x: int): int { (x + 0x8000) % INDEX_LIMIT - 0x8000 }

  /** The identifier made of three ints. */
  function NewId(seg: int, lane: int, pt: int): ElementId { ElementId(Short(seg), Short(lane), Short(pt)) }

  /** Numbers less than 65536 apart stay different. */
  lemma ShortInjective(x: int, y: int)
    requires -INDEX_LIMIT < x - y < INDEX_LIMIT && x != y
    ensures Short(x) != Short(y)
  {}

  /** The identifier of a default-constructed way-point. */
  const NULL_ID := ElementId(-1, -1, -1)

  datatype MapXY = MapXY(x: real, y: real)

  datatype Node = Node(
    xy: MapXY,
    id: ElementId,
    index: Index,
    isStop: bool,
    isPerimeter: bool,
    isSpot: bool,
    isEntry: bool,
    isExit: bool)

  datatype Edge = Edge(
    start: Index,
    end: Index,
    distance: real,
    speedMax: real,
    speedMin: real,
    isExit: bool,
    blocked: bool,
    isImplicit: bool)

  /** A snapshot of the road network graph. */
  datatype Network = Network(nodes: seq<Node>, edges: seq<Edge>)

  /** The first node that carries the index, if any. */
  function NodeAt(nodes: seq<Node>, index: int): (r: Option<Node>)
    ensures r.Some? ==> r.value in nodes && r.value.index == index
    ensures r.None? ==> forall n :: n in nodes ==> n.index != index
  {
    if nodes == [] then None
    else if nodes[0].index == index then Some(nodes[0])
    else NodeAt(nodes[1..], index)
  }

  /** The first node that carries the identifier, if any. */
  function NodeWithId(nodes: seq<Node>, id: ElementId): (r: Option<Node>)
    ensures r.Some? ==> r.value in nodes && r.value.id == id
    ensures r.None? ==> forall n :: n in nodes ==> n.id != id
  {
    if nodes == [] then None
    else if nodes[0].id == id then Some(nodes[0])
    else NodeWithId(nodes[1..], id)
  }

  /** Both ends of every edge are nodes of the graph. */
  ghost predicate EdgesJoinNodes(net: Network) {
    forall e :: e in net.edges ==> NodeAt(net.nodes, e.start).Some? && NodeAt(net.nodes, e.end).Some?
  }

  ghost predicate UniqueIds(nodes: seq<Node>) {
    forall i, j :: 0 <= i < j < |nodes| ==> nodes[i].id != nodes[j].id
  }

  /** Epsilon::equal(x, 0): the relative-error branch can never accept zero. */
  predicate NearZero(x: real) { -0.00001 < x < 0.00001 }

  function Max(a: real, b: real): real { if a < b then b else a }
  function Min(a: real, b: real): real { if b < a then b else a }
}
