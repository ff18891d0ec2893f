/** Shared data model of the plan graph: coordinates, path nodes, robots,
    precedence (Type-2) edges, edge groups and bidirectional pairs, with the
    values their default constructors give them (inc/util.hpp). Pointers of
    the original become NodeRef addresses and integer edge ids into arenas. */
module Util {

  datatype Option<T> = None | Some(value: T)

  /** A grid cell. */
  datatype Coord = Coord(x: int, y: int)

  /** `Coord()`: the default coordinate is (-1, -1). */
  function DefaultCoord(): (c: Coord)
    ensures c.x == -1 && c.y == -1
  {
    Coord(-1, -1)
  }

  /** `Coord::operator==`: field-wise comparison. */
  predicate CoordEq(a: Coord, b: Coord)
  {
    a.x == b.x && a.y == b.y
  }

  /** `Coord::operator!=`: the negation of `==`. */
  predicate CoordNe(a: Coord, b: Coord)
  {
    !CoordEq(a, b)
  }

  /** Two coordinates are `==` exactly when both components agree, which
      is exactly value equality of the datatype. */
  lemma CoordEqIff(a: Coord, b: Coord)
    ensures CoordEq(a, b) <==> (a.x == b.x && a.y == b.y)
    ensures CoordEq(a, b) <==> a == b
  {
  }

  /** `!=` is exactly the negation of `==`, and it is symmetric. */
  lemma CoordNeIsNegation(a: Coord, b: Coord)
    ensures CoordNe(a, b) <==> !CoordEq(a, b)
    ensures CoordNe(a, b) <==> CoordNe(b, a)
    ensures CoordNe(a, b) <==> a != b
  {
  }

  function Abs(n: int): (r: nat)
    ensures r == n || r == -n
  {
    if n < 0 then -n else n
  }

  /** Manhattan distance between two cells. */
  function Manhattan(a: Coord, b: Coord): (d: nat)
    ensures d == 0 <==> a == b
  {
    Abs(a.x - b.x) + Abs(a.y - b.y)
  }

  /** The address of a path node: the `Node*` of the original. A node is
      identified by its robot and its position in that robot's path. */
  datatype NodeRef = Null | At(robot: nat, step: nat)

  /** A path node. Type-2 lists hold edge ids (indices into the edge table). */
  datatype Node = Node(
    coord: Coord,
    type1Next: NodeRef,
    type2Next: seq<nat>,
    type1Prev: NodeRef,
    type2Prev: seq<nat>,
    timeStep: int,
    robotId: int)

  /** `Node()`: no Type-1 links, empty Type-2 lists, timestep and robot -1. */
  function DefaultNode(): (n: Node)
    ensures n.coord == DefaultCoord()
    ensures n.type1Next == Null && n.type1Prev == Null
    ensures n.type2Next == [] && n.type2Prev == []
    ensures n.timeStep == -1 && n.robotId == -1
  {
    Node(Coord(-1, -1), Null, [], Null, [], -1, -1)
  }

  /** `Node(x, y)`: as the default node, at the given cell. */
  function NodeAt(x: int, y: int): (n: Node)
    ensures n.coord.x == x && n.coord.y == y
    ensures n.type1Next == Null && n.type1Prev == Null
    ensures n.type2Next == [] && n.type2Prev == []
    ensures n.timeStep == -1 && n.robotId == -1
  {
    DefaultNode().(coord := Coord(x, y))
  }

  /** A robot: the head of its chain, its path length, its id and the
      finish times of the simulation runs. */
  datatype Agent = Agent(
    type1Next: NodeRef,
    pathLength: int,
    robotId: int,
    finishedTime: int,
    btpgFinishedTime: int,
    tpgFinishedTime: int,
    tpgFinishedTimeNoDelay: int)

  /** `Agent()`: no chain, path length 0, and every id and time -1. */
  function DefaultAgent(): (a: Agent)
    ensures a.type1Next == Null && a.pathLength == 0 && a.robotId == -1
    ensures a.finishedTime == -1 && a.btpgFinishedTime == -1
    ensures a.tpgFinishedTime == -1 && a.tpgFinishedTimeNoDelay == -1
  {
    Agent(Null, 0, -1, -1, -1, -1, -1)
  }

  /** A precedence edge between nodes of two different robots. */
  datatype Type2Edge = Type2Edge(
    edgeId: int,
    biPairId: int,
    groupId: int,
    nodeFrom: NodeRef,
    nodeTo: NodeRef,
    isBidirectional: bool,
    isGrouped: bool)

  /** `type2Edge()`: no endpoints, every id -1 and every flag false. */
  function DefaultType2Edge(): (e: Type2Edge)
    ensures e.nodeFrom == Null && e.nodeTo == Null
    ensures e.edgeId == -1 && e.groupId == -1 && e.biPairId == -1
    ensures !e.isBidirectional && !e.isGrouped
  {
    Type2Edge(-1, -1, -1, Null, Null, false, false)
  }

  /** A run of Type-2 edges (by id) from one robot to another. */
  datatype Type2EdgeGroup = Type2EdgeGroup(
    type2Edges: seq<nat>,
    groupId: int,
    fromId: int,
    toId: int)

  /** `Type2EdgeGroup()`: empty, with ids -1. */
  function DefaultGroup(): (g: Type2EdgeGroup)
    ensures g.type2Edges == [] && g.groupId == -1 && g.fromId == -1 && g.toId == -1
  {
    Type2EdgeGroup([], -1, -1, -1)
  }

  /** An upgraded edge and its synthesized reverse edge. */
  datatype BiPair = BiPair(id: int, originalId: int, flippedId: int, isVisited: bool)

  /** `BiPair(first, second)`: the original and flipped edge ids, not yet
      visited. The constructor leaves `id` unset; the caller assigns it, so
      it is taken here as a parameter. */
  function NewBiPair(id: int, first: int, second: int): (p: BiPair)
    ensures p.originalId == first && p.flippedId == second && !p.isVisited
    ensures p.id == id
  {
    BiPair(id, first, second, false)
  }

  /** `BiPair()`: both edge ids -1. */
  function DefaultBiPair(): (p: BiPair)
    ensures p.originalId == -1 && p.flippedId == -1 && !p.isVisited
  {
    BiPair(-1, -1, -1, false)
  }
}
