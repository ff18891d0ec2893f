/** The Temporal Plan Graph (src/TPG.cpp): robots' Type-1 chains and the
    append-only table of Type-2 precedence edges. Nodes live in an arena
    `nodes[r][t]` (robot r, timestep t); node lists hold edge ids. */
module Tpg {
  import opened Util
  import opened TpgSpec

  /** `n` addresses an existing node. */
  predicate NodeExists(nodes: seq<seq<Node>>, n: NodeRef)
  {
    n.At? && n.robot < |nodes| && n.step < |nodes[n.robot]|
  }

  /** Node (r, t) belongs to robot r at timestep t and is linked to its
      neighbours in r's chain; the first node has no predecessor. */
  predicate ChainsOk(nodes: seq<seq<Node>>)
  {
    forall r, t | 0 <= r < |nodes| && 0 <= t < |nodes[r]| ::
      && nodes[r][t].robotId == r
      && nodes[r][t].timeStep == t
      && nodes[r][t].type1Next == (if t + 1 < |nodes[r]| then At(r, t + 1) else Null)
      && nodes[r][t].type1Prev == (if t > 0 then At(r, t - 1) else Null)
  }

  /** Agent r heads chain r, with the chain's length as path length. */
  predicate AgentsOk(agents: seq<Agent>, nodes: seq<seq<Node>>)
  {
    && |agents| == |nodes|
    && forall r | 0 <= r < |agents| ::
      && agents[r].robotId == r
      && agents[r].pathLength == |nodes[r]|
      && agents[r].type1Next == (if |nodes[r]| > 0 then At(r, 0) else Null)
  }

  /** Edge ids equal table positions; every edge joins existing nodes of two
      different robots. */
  predicate EdgesOk(nodes: seq<seq<Node>>, edges: seq<Type2Edge>)
  {
    forall i | 0 <= i < |edges| ::
      && edges[i].edgeId == i
      && NodeExists(nodes, edges[i].nodeFrom)
      && NodeExists(nodes, edges[i].nodeTo)
      && edges[i].nodeFrom.robot != edges[i].nodeTo.robot
  }

  /** Every id in a node's Type-2 lists names an edge of the table. */
  predicate ListsOk(nodes: seq<seq<Node>>, edges: seq<Type2Edge>)
  {
    && (forall r, t, k | 0 <= r < |nodes| && 0 <= t < |nodes[r]| && 0 <= k < |nodes[r][t].type2Next| ::
          nodes[r][t].type2Next[k] < |edges|)
    && (forall r, t, k | 0 <= r < |nodes| && 0 <= t < |nodes[r]| && 0 <= k < |nodes[r][t].type2Prev| ::
          nodes[r][t].type2Prev[k] < |edges|)
  }

  predicate GraphOk(agents: seq<Agent>, nodes: seq<seq<Node>>, edges: seq<Type2Edge>)
  {
    AgentsOk(agents, nodes) && ChainsOk(nodes) && EdgesOk(nodes, edges) && ListsOk(nodes, edges)
  }

  /** Each node's lists are exactly the ids of the edges leaving and entering it. */
  predicate ListsMatch(nodes: seq<seq<Node>>, edges: seq<Type2Edge>)
  {
    && (forall r, t {:trigger OutIds(edges, At(r, t))} | 0 <= r < |nodes| && 0 <= t < |nodes[r]| ::
          nodes[r][t].type2Next == OutIds(edges, At(r, t)))
    && (forall r, t {:trigger InIds(edges, At(r, t))} | 0 <= r < |nodes| && 0 <= t < |nodes[r]| ::
          nodes[r][t].type2Prev == InIds(edges, At(r, t)))
  }

  /** The arenas agree on everything but the Type-2 lists. */
  predicate SameSkeleton(a: seq<seq<Node>>, b: seq<seq<Node>>)
  {
    && |a| == |b|
    && (forall r {:trigger a[r]} | 0 <= r < |a| :: |a[r]| == |b[r]|)
    && forall r, t {:trigger a[r][t]} | 0 <= r < |a| && 0 <= t < |a[r]| ::
      && a[r][t].coord == b[r][t].coord
      && a[r][t].type1Next == b[r][t].type1Next
      && a[r][t].type1Prev == b[r][t].type1Prev
      && a[r][t].timeStep == b[r][t].timeStep
      && a[r][t].robotId == b[r][t].robotId
  }

  /** Chain r of the arena holds exactly the cells of path r. */
  predicate CoordsMatch(nodes: seq<seq<Node>>, paths: seq<seq<Coord>>)
  {
    && |nodes| == |paths|
    && (forall r | 0 <= r < |nodes| :: |nodes[r]| == |paths[r]|)
    && forall r, t | 0 <= r < |nodes| && 0 <= t < |nodes[r]| :: nodes[r][t].coord == paths[r][t]
  }

  /** The arena holds the chains of `paths`: node (r, t) is robot r's
      cell at timestep t, linked to its neighbours. */
  predicate Shaped(nodes: seq<seq<Node>>, paths: seq<seq<Coord>>)
  {
    && |nodes| == |paths|
    && (forall r {:trigger nodes[r]} | 0 <= r < |nodes| :: |nodes[r]| == |paths[r]|)
    && forall r, t {:trigger nodes[r][t]} | 0 <= r < |nodes| && 0 <= t < |nodes[r]| ::
      && nodes[r][t].coord == paths[r][t]
      && nodes[r][t].robotId == r
      && nodes[r][t].timeStep == t
      && nodes[r][t].type1Next == (if t + 1 < |paths[r]| then At(r, t + 1) else Null)
      && nodes[r][t].type1Prev == (if t > 0 then At(r, t - 1) else Null)
  }

  /** Agent r is robot r, heading chain r of `paths`. */
  predicate AgentsMatch(agents: seq<Agent>, paths: seq<seq<Coord>>)
  {
    && |agents| == |paths|
    && forall r {:trigger agents[r]} | 0 <= r < |agents| ::
      agents[r].robotId == r && agents[r].type1Next == (if |paths[r]| > 0 then At(r, 0) else Null)
  }

  lemma ShapedKept(a: seq<seq<Node>>, b: seq<seq<Node>>, paths: seq<seq<Coord>>)
    requires SameSkeleton(a, b) && Shaped(b, paths)
    ensures Shaped(a, paths)
  {
  }

  lemma ShapedIff(nodes: seq<seq<Node>>, paths: seq<seq<Coord>>)
    ensures Shaped(nodes, paths) <==> CoordsMatch(nodes, paths) && ChainsOk(nodes)
  {
  }

  /** A freshly built chain for robot r over `path`: timesteps 0, 1, ...,
      neighbours linked both ways, empty Type-2 lists. */
  predicate ChainRow(row: seq<Node>, r: nat, path: seq<Coord>)
  {
    && |row| == |path|
    && forall t | 0 <= t < |row| ::
      && row[t].coord == path[t]
      && row[t].timeStep == t
      && row[t].robotId == r
      && row[t].type1Next == (if t + 1 < |row| then At(r, t + 1) else Null)
      && row[t].type1Prev == (if t > 0 then At(r, t - 1) else Null)
      && row[t].type2Next == [] && row[t].type2Prev == []
  }

  /** Appends `id` to the outgoing list of node n (`n->Type2Next.push_back`). */
  function PushOut(nodes: seq<seq<Node>>, n: NodeRef, id: nat): (res: seq<seq<Node>>)
    requires NodeExists(nodes, n)
    ensures SameSkeleton(res, nodes)
    ensures forall r, t | 0 <= r < |res| && 0 <= t < |res[r]| ::
      && res[r][t].type2Next == (if At(r, t) == n then nodes[r][t].type2Next + [id] else nodes[r][t].type2Next)
      && res[r][t].type2Prev == nodes[r][t].type2Prev
  {
    var node := nodes[n.robot][n.step];
    nodes[n.robot := nodes[n.robot][n.step := node.(type2Next := node.type2Next + [id])]]
  }

  /** Appends `id` to the incoming list of node n (`n->Type2Prev.push_back`). */
  function PushIn(nodes: seq<seq<Node>>, n: NodeRef, id: nat): (res: seq<seq<Node>>)
    requires NodeExists(nodes, n)
    ensures SameSkeleton(res, nodes)
    ensures forall r, t | 0 <= r < |res| && 0 <= t < |res[r]| ::
      && res[r][t].type2Prev == (if At(r, t) == n then nodes[r][t].type2Prev + [id] else nodes[r][t].type2Prev)
      && res[r][t].type2Next == nodes[r][t].type2Next
  {
    var node := nodes[n.robot][n.step];
    nodes[n.robot := nodes[n.robot][n.step := node.(type2Prev := node.type2Prev + [id])]]
  }

  lemma SameSkeletonTrans(a: seq<seq<Node>>, b: seq<seq<Node>>, c: seq<seq<Node>>)
    requires SameSkeleton(a, b) && SameSkeleton(b, c)
    ensures SameSkeleton(a, c)
  {
  }

  /** Appending an edge and pushing its id onto its endpoints' lists keeps
      every node's lists equal to the ids of its edges. */
  lemma ListsMatchAfterLink(nodes: seq<seq<Node>>, edges: seq<Type2Edge>, e: Type2Edge)
    requires ListsMatch(nodes, edges)
    requires NodeExists(nodes, e.nodeFrom) && NodeExists(nodes, e.nodeTo)
    ensures ListsMatch(PushIn(PushOut(nodes, e.nodeFrom, |edges|), e.nodeTo, |edges|), edges + [e])
  {
    var res: seq<seq<Node>> := PushIn(PushOut(nodes, e.nodeFrom, |edges|), e.nodeTo, |edges|);
    forall r: int, t: int | 0 <= r < |res| && 0 <= t < |res[r]|
      ensures res[r][t].type2Next == OutIds(edges + [e], At(r, t))
      ensures res[r][t].type2Prev == InIds(edges + [e], At(r, t))
    {
      OutInIdsAppend(edges, e, At(r, t));
    }
  }

  /** Lists that hold exactly the ids of a node's edges only name edges of the table. */
  lemma ListsMatchOk(nodes: seq<seq<Node>>, edges: seq<Type2Edge>)
    requires ListsMatch(nodes, edges)
    ensures ListsOk(nodes, edges)
  {
    forall r, t | 0 <= r < |nodes| && 0 <= t < |nodes[r]|
      ensures forall k | 0 <= k < |nodes[r][t].type2Next| :: nodes[r][t].type2Next[k] < |edges|
      ensures forall k | 0 <= k < |nodes[r][t].type2Prev| :: nodes[r][t].type2Prev[k] < |edges|
    {
      OutIdsExact(edges, At(r, t));
      InIdsExact(edges, At(r, t));
      assert nodes[r][t].type2Next == OutIds(edges, At(r, t));
      assert nodes[r][t].type2Prev == InIds(edges, At(r, t));
      assert forall k | 0 <= k < |nodes[r][t].type2Next| :: nodes[r][t].type2Next[k] in OutIds(edges, At(r, t));
      assert forall k | 0 <= k < |nodes[r][t].type2Prev| :: nodes[r][t].type2Prev[k] in InIds(edges, At(r, t));
    }
  }

  /** The edge table built from the paths is well formed over any arena
      that holds those paths. */
  lemma ConflictTableOk(paths: seq<seq<Coord>>, nodes: seq<seq<Node>>)
    requires CanBuild(paths) && CoordsMatch(nodes, paths)
    ensures EdgesOk(nodes, EdgeTable(ConflictLinks(paths)))
  {
    ConflictEdgesWellFormed(paths);
  }

  /** Builds robot r's chain from its cells, the way the path reader links
      each new node to the previous one (src/TPG.cpp:23-55). */
  method BuildChain(r: nat, path: seq<Coord>) returns (agent: Agent, row: seq<Node>)
    ensures ChainRow(row, r, path)
    ensures agent.robotId == r && agent.pathLength == |path|
    ensures agent.type1Next == (if |path| > 0 then At(r, 0) else Null)
    ensures agent.finishedTime == -1 && agent.btpgFinishedTime == -1
    ensures agent.tpgFinishedTime == -1 && agent.tpgFinishedTimeNoDelay == -1
  {
    agent := DefaultAgent().(robotId := r);
    row := [];
    var prev := Null;
    var timeStep := 0;
    while timeStep < |path|
      invariant timeStep <= |path|
      invariant ChainRow(row, r, path[..timeStep])
      invariant prev == (if timeStep > 0 then At(r, timeStep - 1) else Null)
      invariant agent == DefaultAgent().(robotId := r, pathLength := timeStep,
                                         type1Next := if timeStep > 0 then At(r, 0) else Null)
    {
      var newNode := NodeAt(path[timeStep].x, path[timeStep].y).(robotId := r, timeStep := timeStep);
      if prev == Null {
        agent := agent.(type1Next := At(r, timeStep));
        agent := agent.(pathLength := agent.pathLength + 1);
      } else {
        row := row[timeStep - 1 := row[timeStep - 1].(type1Next := At(r, timeStep))];
        newNode := newNode.(type1Prev := prev);
        agent := agent.(pathLength := agent.pathLength + 1);
      }
      row := row + [newNode];
      prev := At(r, timeStep);
      timeStep := timeStep + 1;
    }
    assert path[..timeStep] == path;
  }

  class TPG {
    var numAgents: int
    var numTypeTwoEdges: int
    var agents: seq<Agent>
    var type2Edges: seq<Type2Edge>
    var nodes: seq<seq<Node>>

    ghost predicate Valid()
      reads this
    {
      && numAgents == |agents|
      && numTypeTwoEdges == |type2Edges|
      && GraphOk(agents, nodes, type2Edges)
    }

    /** Builds the graph of the given paths: one chain per robot, then one
        edge per conflict in loop order, each listed at both endpoints. */
    constructor (paths: seq<seq<Coord>>)
      requires CanBuild(paths)
      ensures Valid()
      ensures numAgents == |paths| && CoordsMatch(nodes, paths)
      ensures type2Edges == EdgeTable(ConflictLinks(paths))
      ensures ListsMatch(nodes, type2Edges)
      ensures forall r | 0 <= r < |agents| ::
        agents[r].finishedTime == -1 && agents[r].btpgFinishedTime == -1 &&
        agents[r].tpgFinishedTime == -1 && agents[r].tpgFinishedTimeNoDelay == -1
    {
      numAgents := 0;
      numTypeTwoEdges := 0;
      agents := [];
      type2Edges := [];
      nodes := [];
      new;
      var i := 0;
      while i < |paths|
        invariant i <= |paths|
        invariant numAgents == |agents| == |nodes| == i
        invariant numTypeTwoEdges == 0 && type2Edges == []
        invariant forall r | 0 <= r < i :: ChainRow(nodes[r], r, paths[r])
        invariant forall r | 0 <= r < i ::
          && agents[r].robotId == r && agents[r].pathLength == |paths[r]|
          && agents[r].type1Next == (if |paths[r]| > 0 then At(r, 0) else Null)
          && agents[r].finishedTime == -1 && agents[r].btpgFinishedTime == -1
          && agents[r].tpgFinishedTime == -1 && agents[r].tpgFinishedTimeNoDelay == -1
      {
        var agent, row := BuildChain(i, paths[i]);
        AddRobot(agent, row);
        i := i + 1;
      }
      assert ListsMatch(nodes, type2Edges);
      assert Shaped(nodes, paths);
      AddTypeTwoEdges(paths);
      ShapedIff(nodes, paths);
      ConflictTableOk(paths, nodes);
      ListsMatchOk(nodes, type2Edges);
    }

    /** The part of construction that adds the Type-2 edges
        (src/TPG.cpp:61-91): every robot, every node of it, every other
        robot, every node of that one. */
    method AddTypeTwoEdges(paths: seq<seq<Coord>>)
      requires CanBuild(paths) && Shaped(nodes, paths) && AgentsMatch(agents, paths)
      requires numAgents == |agents|
      requires type2Edges == [] && numTypeTwoEdges == 0 && ListsMatch(nodes, type2Edges)
      modifies this
      ensures type2Edges == EdgeTable(ConflictLinks(paths)) && numTypeTwoEdges == |type2Edges|
      ensures ListsMatch(nodes, type2Edges) && Shaped(nodes, paths)
      ensures agents == old(agents) && numAgents == old(numAgents)
    {
      var r := 0;
      while r < |agents|
        invariant r <= |agents| == |paths|
        invariant type2Edges == EdgeTable(Scan(paths, Robots(r))) && numTypeTwoEdges == |type2Edges|
        invariant ListsMatch(nodes, type2Edges) && Shaped(nodes, paths)
        invariant agents == old(agents) && numAgents == old(numAgents)
      {
        AddRobotEdges(paths, r);
        r := r + 1;
      }
    }

    /** All edges whose source lies on robot r's chain (src/TPG.cpp:63-90). */
    method AddRobotEdges(paths: seq<seq<Coord>>, r: nat)
      requires CanBuild(paths) && Shaped(nodes, paths) && AgentsMatch(agents, paths)
      requires r < |agents| && numAgents == |agents|
      requires type2Edges == EdgeTable(Scan(paths, Robots(r))) && numTypeTwoEdges == |type2Edges|
      requires ListsMatch(nodes, type2Edges)
      modifies this
      ensures type2Edges == EdgeTable(Scan(paths, Robots(r + 1))) && numTypeTwoEdges == |type2Edges|
      ensures ListsMatch(nodes, type2Edges) && Shaped(nodes, paths)
      ensures agents == old(agents) && numAgents == old(numAgents)
    {
      ghost var done := Scan(paths, Robots(r));
      var node := agents[r].type1Next;
      var t := 0;
      assert done + Scan(paths, Nodes(r, 0)) == done;
      while node != Null
        invariant t <= |paths[r]|
        invariant node == (if t < |paths[r]| then At(r, t) else Null)
        invariant type2Edges == EdgeTable(done + Scan(paths, Nodes(r, t))) && numTypeTwoEdges == |type2Edges|
        invariant ListsMatch(nodes, type2Edges) && Shaped(nodes, paths)
        invariant agents == old(agents) && numAgents == old(numAgents)
        decreases |paths[r]| - t
      {
        AddNodeEdges(paths, r, t, done);
        node := nodes[r][t].type1Next;
        t := t + 1;
      }
    }

    /** All edges whose source is the successor of node (r, t): the node
        against every other robot (src/TPG.cpp:68-87). */
    method AddNodeEdges(paths: seq<seq<Coord>>, r: nat, t: nat, ghost done: seq<Link>)
      requires CanBuild(paths) && Shaped(nodes, paths) && AgentsMatch(agents, paths)
      requires ValidPos(paths, r, t) && numAgents == |agents|
      requires type2Edges == EdgeTable(done + Scan(paths, Nodes(r, t))) && numTypeTwoEdges == |type2Edges|
      requires ListsMatch(nodes, type2Edges)
      modifies this
      ensures type2Edges == EdgeTable(done + Scan(paths, Nodes(r, t + 1))) && numTypeTwoEdges == |type2Edges|
      ensures ListsMatch(nodes, type2Edges) && Shaped(nodes, paths)
      ensures agents == old(agents) && numAgents == old(numAgents)
    {
      ghost var start := done + Scan(paths, Nodes(r, t));
      var other := 0;
      while other < |agents|
        invariant other <= |agents| == |paths|
        invariant type2Edges == EdgeTable(start + Scan(paths, Others(r, t, other)))
        invariant numTypeTwoEdges == |type2Edges|
        invariant ListsMatch(nodes, type2Edges) && Shaped(nodes, paths)
        invariant agents == old(agents) && numAgents == old(numAgents)
      {
        AddPairEdges(paths, r, t, other, start);
        other := other + 1;
      }
      ConcatAssoc(done, Scan(paths, Nodes(r, t)), Scan(paths, Others(r, t, |paths|)));
      assert start + Scan(paths, Others(r, t, |paths|)) == done + Scan(paths, Nodes(r, t + 1));
    }

    /** Node (r, t) against every node of robot `other`, unless `other` is
        robot r itself (src/TPG.cpp:70-86). */
    method AddPairEdges(paths: seq<seq<Coord>>, r: nat, t: nat, other: nat,
                        ghost done: seq<Link>)
      requires CanBuild(paths) && Shaped(nodes, paths) && AgentsMatch(agents, paths)
      requires ValidPos(paths, r, t) && other < |paths|
      requires type2Edges == EdgeTable(done + Scan(paths, Others(r, t, other))) && numTypeTwoEdges == |type2Edges|
      requires ListsMatch(nodes, type2Edges)
      modifies this
      ensures type2Edges == EdgeTable(done + Scan(paths, Others(r, t, other + 1)))
      ensures numTypeTwoEdges == |type2Edges|
      ensures ListsMatch(nodes, type2Edges) && Shaped(nodes, paths)
      ensures agents == old(agents) && numAgents == old(numAgents)
    {
      if agents[other].robotId == agents[r].robotId {
        ScanOtherSelf(paths, r, t, |paths[r]|);
        assert Scan(paths, Others(r, t, other + 1)) == Scan(paths, Others(r, t, other));
        return;
      }
      ghost var start := done + Scan(paths, Others(r, t, other));
      var otherNode := agents[other].type1Next;
      var t2 := 0;
      assert start + Scan(paths, OtherNodes(r, t, other, 0)) == start;
      while otherNode != Null
        invariant t2 <= |paths[other]|
        invariant otherNode == (if t2 < |paths[other]| then At(other, t2) else Null)
        invariant type2Edges == EdgeTable(start + Scan(paths, OtherNodes(r, t, other, t2)))
        invariant numTypeTwoEdges == |type2Edges|
        invariant ListsMatch(nodes, type2Edges) && Shaped(nodes, paths)
        invariant agents == old(agents) && numAgents == old(numAgents)
        decreases |paths[other]| - t2
      {
        CompareNodes(paths, r, t, other, t2, start);
        otherNode := nodes[other][t2].type1Next;
        t2 := t2 + 1;
      }
      ConcatAssoc(done, Scan(paths, Others(r, t, other)), Scan(paths, OtherNodes(r, t, other, |paths[other]|)));
      assert start + Scan(paths, OtherNodes(r, t, other, |paths[other]|)) == done + Scan(paths, Others(r, t, other + 1));
    }

    /** One step of the innermost loop: if robot `other` visits the cell of
        node (r, t) later, at timestep t2, adds the edge from r's next node
        to (other, t2) (src/TPG.cpp:75-84). */
    method CompareNodes(paths: seq<seq<Coord>>, r: nat, t: nat, other: nat, t2: nat,
                        ghost done: seq<Link>)
      requires CanBuild(paths) && Shaped(nodes, paths)
      requires ValidPos(paths, r, t) && ValidPos(paths, other, t2) && other != r
      requires type2Edges == EdgeTable(done + Scan(paths, OtherNodes(r, t, other, t2)))
      requires numTypeTwoEdges == |type2Edges| && ListsMatch(nodes, type2Edges)
      modifies this
      ensures type2Edges == EdgeTable(done + Scan(paths, OtherNodes(r, t, other, t2 + 1)))
      ensures numTypeTwoEdges == |type2Edges|
      ensures ListsMatch(nodes, type2Edges) && Shaped(nodes, paths)
      ensures agents == old(agents) && numAgents == old(numAgents)
    {
      var node := nodes[r][t];
      var otherNode := nodes[other][t2];
      if CoordEq(otherNode.coord, node.coord) && otherNode.timeStep > node.timeStep {
        assert t + 1 < |paths[r]| by {
          assert Conflict(paths, r, t, other, t2);
        }
        var newEdge := DefaultType2Edge();
        newEdge := newEdge.(nodeFrom := node.type1Next);
        newEdge := newEdge.(nodeTo := At(other, t2));
        newEdge := newEdge.(edgeId := GetNumTypeTwoEdges());
        ghost var prev := done + Scan(paths, OtherNodes(r, t, other, t2));
        assert Conflict(paths, r, t, other, t2);
        ConcatAssoc(done, Scan(paths, OtherNodes(r, t, other, t2)), [ConflictLink(r, t, other, t2)]);
        assert done + Scan(paths, OtherNodes(r, t, other, t2 + 1)) == prev + [ConflictLink(r, t, other, t2)];
        EdgeTableAppend(prev, ConflictLink(r, t, other, t2));
        ghost var before := nodes;
        LinkEdge(newEdge);
        ShapedKept(nodes, before, paths);
      } else {
        assert !Conflict(paths, r, t, other, t2);
        assert Scan(paths, OtherNodes(r, t, other, t2 + 1)) == Scan(paths, OtherNodes(r, t, other, t2));
      }
    }

    /** Records a new edge: appends it to the table and pushes its id onto
        the outgoing list of its source and the incoming list of its target
        (src/TPG.cpp:81-83). */
    method LinkEdge(e: Type2Edge)
      requires numTypeTwoEdges == |type2Edges| && ListsMatch(nodes, type2Edges)
      requires e.edgeId == |type2Edges| && NodeExists(nodes, e.nodeFrom) && NodeExists(nodes, e.nodeTo)
      modifies this
      ensures type2Edges == old(type2Edges) + [e] && numTypeTwoEdges == |type2Edges|
      ensures ListsMatch(nodes, type2Edges) && SameSkeleton(nodes, old(nodes))
      ensures agents == old(agents) && numAgents == old(numAgents)
    {
      ListsMatchAfterLink(nodes, type2Edges, e);
      AddTypeTwoEdge(e);
      var afterOut := PushOut(nodes, e.nodeFrom, e.edgeId);
      nodes := PushIn(afterOut, e.nodeTo, e.edgeId);
      SameSkeletonTrans(nodes, afterOut, old(nodes));
    }

    function GetNumAgents(): (n: int)
      reads this
      requires Valid()
      ensures n == |agents| == |nodes|
    {
      numAgents
    }

    /** `addRobot`: appends a robot (here with its chain) and counts it. */
    method AddRobot(agent: Agent, row: seq<Node>)
      modifies this
      ensures agents == old(agents) + [agent] && nodes == old(nodes) + [row]
      ensures numAgents == old(numAgents) + 1
      ensures numTypeTwoEdges == old(numTypeTwoEdges) && type2Edges == old(type2Edges)
    {
      numAgents := numAgents + 1;
      agents := agents + [agent];
      nodes := nodes + [row];
    }

    /** `addTypeTwoEdge`: appends an edge and counts it. */
    method AddTypeTwoEdge(edge: Type2Edge)
      modifies this
      ensures type2Edges == old(type2Edges) + [edge] && numTypeTwoEdges == old(numTypeTwoEdges) + 1
      ensures agents == old(agents) && nodes == old(nodes) && numAgents == old(numAgents)
    {
      numTypeTwoEdges := numTypeTwoEdges + 1;
      type2Edges := type2Edges + [edge];
    }

    /** Writes the arena and the edge table at once, keeping the edge count
        in step; `BTPG` writes these inherited members directly. */
    method SetGraph(nodes': seq<seq<Node>>, edges': seq<Type2Edge>)
      modifies this
      ensures nodes == nodes' && type2Edges == edges' && numTypeTwoEdges == |edges'|
      ensures agents == old(agents) && numAgents == old(numAgents)
    {
      nodes := nodes';
      type2Edges := edges';
      numTypeTwoEdges := |edges'|;
    }

    function GetNumTypeTwoEdges(): (n: int)
      reads this
      requires numTypeTwoEdges == |type2Edges|
      ensures n == |type2Edges|
    {
      numTypeTwoEdges
    }

    /** `getAgent`: the robot with the given id. */
    function GetAgent(robotId: int): (a: Agent)
      reads this
      requires Valid() && 0 <= robotId < numAgents
      ensures a.robotId == robotId && a.pathLength == |nodes[robotId]|
    {
      agents[robotId]
    }

    /** `getTypeTwoEdge`: the edge with the given id. */
    function GetTypeTwoEdge(edgeId: int): (e: Type2Edge)
      reads this
      requires Valid() && 0 <= edgeId < numTypeTwoEdges
      ensures e.edgeId == edgeId
      ensures NodeExists(nodes, e.nodeFrom) && NodeExists(nodes, e.nodeTo)
    {
      type2Edges[edgeId]
    }

    /** `removeTypeTwoEdge`: erases the entry at the edge's id and uncounts it. */
    method RemoveTypeTwoEdge(edge: Type2Edge)
      requires 0 <= edge.edgeId < |type2Edges|
      modifies this
      ensures type2Edges == old(type2Edges)[..edge.edgeId] + old(type2Edges)[edge.edgeId + 1..]
      ensures numTypeTwoEdges == old(numTypeTwoEdges) - 1
      ensures agents == old(agents) && nodes == old(nodes) && numAgents == old(numAgents)
    {
      type2Edges := type2Edges[..edge.edgeId] + type2Edges[edge.edgeId + 1..];
      numTypeTwoEdges := numTypeTwoEdges - 1;
    }
  }

  /** Erasing the position of the most recently appended edge gives back the
      table as it was before the append. */
  lemma {:induction false} RemoveLastRestores(table: seq<Type2Edge>, e: Type2Edge)
    ensures var t := table + [e]; t[..|table|] + t[|table| + 1..] == table
  {
    var t := table + [e];
    assert t[..|table|] == table;
    assert t[|table| + 1..] == [];
  }

  /** In a well-formed graph Type1Next and Type1Prev are mutual inverses,
      and a robot's first node has no predecessor. */
  lemma Type1Inverse(nodes: seq<seq<Node>>, r: nat, t: nat)
    requires ChainsOk(nodes) && r < |nodes| && t < |nodes[r]|
    ensures nodes[r][t].type1Next.At? ==>
      NodeExists(nodes, nodes[r][t].type1Next) &&
      nodes[nodes[r][t].type1Next.robot][nodes[r][t].type1Next.step].type1Prev == At(r, t)
    ensures nodes[r][t].type1Prev.At? ==>
      NodeExists(nodes, nodes[r][t].type1Prev) &&
      nodes[nodes[r][t].type1Prev.robot][nodes[r][t].type1Prev.step].type1Next == At(r, t)
    ensures t == 0 <==> nodes[r][t].type1Prev == Null
  {
  }
}
