/** The backtracking search that decides whether an edge may be made
    bidirectional (`BTPG::BidirectionalDFS`, src/BTPG.cpp:305-488). The graph
    is read-only during a search, so a search holds it as constants; the
    state the original passes by reference (visited set, revisit sets,
    recursion path and its set, and the two per-robot edge maps) is the
    mutable state of a `Search` object. */
module Search {
  import opened Util
  import opened Tpg

  /** What the search needs of the graph: linked chains, edges between
      existing nodes with ids equal to positions, node lists naming edges. */
  predicate SearchGraphOk(nodes: seq<seq<Node>>, edges: seq<Type2Edge>)
  {
    ChainsOk(nodes) && EdgesOk(nodes, edges) && ListsOk(nodes, edges)
  }

  function AllNodes(nodes: seq<seq<Node>>): set<NodeRef>
  {
    set r: nat, t: nat | r < |nodes| && t < |nodes[r]| :: At(r, t)
  }

  lemma AllNodesHas(nodes: seq<seq<Node>>, n: NodeRef)
    requires NodeExists(nodes, n)
    ensures n in AllNodes(nodes)
  {
    assert n == At(n.robot, n.step);
  }

  /** Putting a new node on the path leaves fewer nodes off it: the
      search's termination measure. */
  lemma PushShrinks(all: set<NodeRef>, onPath: set<NodeRef>, n: NodeRef)
    requires n in all && n !in onPath
    ensures |all - (onPath + {n})| < |all - onPath|
  {
    assert all - (onPath + {n}) == (all - onPath) - {n};
  }

  /** The nodes of a path from the last occurrence of `target` to its end,
      or all of them when `target` is not on it (the reverse walks of
      src/BTPG.cpp:367-374, 398-405 and 420-427). */
  function BackTo(path: seq<NodeRef>, target: NodeRef): set<NodeRef>
  {
    if |path| == 0 then {}
    else if path[|path| - 1] == target then {target}
    else {path[|path| - 1]} + BackTo(path[..|path| - 1], target)
  }

  /** Every node at a position after which `target` does not occur is collected. */
  lemma {:induction false} BackToHas(path: seq<NodeRef>, target: NodeRef, i: nat)
    requires i < |path| && target !in path[i + 1..]
    ensures path[i] in BackTo(path, target)
    decreases |path|
  {
    var n := |path| - 1;
    var front := path[..n];
    if i < n {
      assert path[i + 1..] == front[i + 1..] + [path[n]];
      BackToHas(front, target, i);
      assert front[i] == path[i];
    }
  }

  /** Only such nodes are collected: each comes with its position. */
  lemma {:induction false} BackToOnly(path: seq<NodeRef>, target: NodeRef, x: NodeRef)
    returns (i: nat)
    requires x in BackTo(path, target)
    ensures i < |path| && path[i] == x && target !in path[i + 1..]
    decreases |path|
  {
    var n := |path| - 1;
    var front := path[..n];
    if x == path[n] {
      i := n;
      assert path[n + 1..] == [];
    } else {
      assert path[n] != target;
      assert x in BackTo(front, target);
      i := BackToOnly(front, target, x);
      assert path[i + 1..] == front[i + 1..] + [path[n]];
    }
  }

  /** A node is collected exactly when it sits on the path at a position
      after which `target` does not occur. */
  lemma BackToExact(path: seq<NodeRef>, target: NodeRef, x: NodeRef)
    ensures x in BackTo(path, target) <==>
      exists i :: 0 <= i < |path| && path[i] == x && target !in path[i + 1..]
  {
    if x in BackTo(path, target) {
      var i := BackToOnly(path, target, x);
    }
    if exists i :: 0 <= i < |path| && path[i] == x && target !in path[i + 1..] {
      var i :| 0 <= i < |path| && path[i] == x && target !in path[i + 1..];
      BackToHas(path, target, i);
    }
  }

  /** Every path node but the first: what reaching the end node too early
      un-marks (src/BTPG.cpp:328-332). */
  function PathTail(path: seq<NodeRef>): set<NodeRef>
  {
    set i | 1 <= i < |path| :: path[i]
  }

  /** One move of the search from node a to node b: along a's Type-1 edge,
      or along a Type-2 edge listed as leaving a. */
  predicate Step(nodes: seq<seq<Node>>, edges: seq<Type2Edge>, a: NodeRef, b: NodeRef)
  {
    && NodeExists(nodes, a)
    && (|| nodes[a.robot][a.step].type1Next == b
        || exists id | id in nodes[a.robot][a.step].type2Next :: id < |edges| && edges[id].nodeTo == b)
  }

  /** A walk of at least one node, each move a `Step`. */
  predicate Walk(nodes: seq<seq<Node>>, edges: seq<Type2Edge>, w: seq<NodeRef>)
  {
    |w| >= 1 && forall i | 0 <= i < |w| - 1 :: Step(nodes, edges, w[i], w[i + 1])
  }

  /** A successful search from `from`: the recursion path is the one it
      started with, followed by a walk from `from` whose next move reaches
      `to`. */
  predicate Reached(nodes: seq<seq<Node>>, edges: seq<Type2Edge>, before: seq<NodeRef>, after: seq<NodeRef>,
                    from: NodeRef, to: NodeRef)
  {
    && |before| <= |after| && after[..|before|] == before
    && var w := after[|before|..] + [to]; w[0] == from && Walk(nodes, edges, w)
  }

  /** A success one level down, after a move from `curr`, is a success
      from `curr`. */
  lemma ReachedBack(nodes: seq<seq<Node>>, edges: seq<Type2Edge>, before: seq<NodeRef>, after: seq<NodeRef>,
                    curr: NodeRef, next: NodeRef, to: NodeRef)
    requires Reached(nodes, edges, before + [curr], after, next, to) && Step(nodes, edges, curr, next)
    ensures Reached(nodes, edges, before, after, curr, to)
  {
    var n := |before|;
    assert after[..n] == (after[..n + 1])[..n] == before;
    assert after[n] == (after[..n + 1])[n] == curr;
    var w, w' := after[n..] + [to], after[n + 1..] + [to];
    assert w == [curr] + w';
    forall i | 0 <= i < |w| - 1
      ensures Step(nodes, edges, w[i], w[i + 1])
    {
      if i > 0 {
        assert w[i] == w'[i - 1] && w[i + 1] == w'[i];
      }
    }
  }

  /** A walk keeps being one in a table that gives every edge up to the
      original size the same target. */
  lemma WalkKept(nodes: seq<seq<Node>>, edges: seq<Type2Edge>, edges': seq<Type2Edge>, w: seq<NodeRef>)
    requires ListsOk(nodes, edges) && Walk(nodes, edges', w)
    requires |edges| <= |edges'| && forall id | 0 <= id < |edges| :: edges'[id].nodeTo == edges[id].nodeTo
    ensures Walk(nodes, edges, w)
  {
    forall i | 0 <= i < |w| - 1
      ensures Step(nodes, edges, w[i], w[i + 1])
    {
      assert Step(nodes, edges', w[i], w[i + 1]);
      var a := w[i];
      if nodes[a.robot][a.step].type1Next != w[i + 1] {
        var id :| id in nodes[a.robot][a.step].type2Next && id < |edges'| && edges'[id].nodeTo == w[i + 1];
        var k :| 0 <= k < |nodes[a.robot][a.step].type2Next| && nodes[a.robot][a.step].type2Next[k] == id;
        assert id < |edges|;
      }
    }
  }

  /** A per-robot edge map: one entry per robot, each an edge id or -1. */
  predicate EdgeMapOk(m: seq<int>, numRobots: nat, numEdges: nat)
  {
    |m| == numRobots && forall r | 0 <= r < |m| :: -1 <= m[r] < numEdges
  }

  /** The recursion path has no repeated node and its set holds exactly its nodes. */
  predicate PathOk(path: seq<NodeRef>, onPath: set<NodeRef>)
  {
    && onPath == (set x | x in path)
    && forall i, j | 0 <= i < j < |path| :: path[i] != path[j]
  }

  /** The search state fits the graph: one revisit set per edge, edge maps
      over the robots, a duplicate-free path with its set. */
  predicate StateOk(revisit: seq<set<NodeRef>>, enter: seq<int>, leave: seq<int>,
                    path: seq<NodeRef>, onPath: set<NodeRef>, numRobots: nat, numEdges: nat)
  {
    && |revisit| == numEdges
    && EdgeMapOk(enter, numRobots, numEdges)
    && EdgeMapOk(leave, numRobots, numEdges)
    && PathOk(path, onPath)
  }

  /** The reverse walk over a path that collects nodes up to and including
      the last occurrence of `target` (src/BTPG.cpp:420-427). */
  method CollectBackTo(p: seq<NodeRef>, target: NodeRef) returns (collected: set<NodeRef>)
    ensures collected == BackTo(p, target)
  {
    collected := {};
    var i := |p|;
    assert p[..i] == p;
    while i > 0
      invariant 0 <= i <= |p|
      invariant BackTo(p, target) == BackTo(p[..i], target) + collected
      invariant collected == set j | i <= j < |p| :: p[j]
    {
      var node := p[i - 1];
      assert p[..i - 1] == p[..i][..i - 1];
      assert (set j | i - 1 <= j < |p| :: p[j]) == {node} + collected;
      collected := collected + {node};
      if node == target {
        return;
      }
      i := i - 1;
    }
    assert p[..i] == [];
  }

  class Search {
    const nodes: seq<seq<Node>>
    const edges: seq<Type2Edge>
    const mode: int
    const endNode: NodeRef
    var visited: set<NodeRef>
    var revisit: seq<set<NodeRef>>
    var path: seq<NodeRef>
    var onPath: set<NodeRef>
    /** Per robot, the edge the current path entered it by, or -1 (`AgentEdgeMap_`). */
    var enter: seq<int>
    /** Per robot, the edge the current path left it by, or -1 (`AgentEdgeMapLeave_`). */
    var leave: seq<int>

    ghost predicate Valid()
      reads this
    {
      && SearchGraphOk(nodes, edges)
      && NodeExists(nodes, endNode)
      && StateOk(revisit, enter, leave, path, onPath, |nodes|, |edges|)
    }

    /** The initial search state of src/BTPG.cpp:237-275: the end node's
        predecessors on its own chain are visited, every revisit set is
        empty, the path is empty and both maps hold -1 for every robot. */
    constructor (nodes: seq<seq<Node>>, edges: seq<Type2Edge>, mode: int, endNode: NodeRef)
      requires SearchGraphOk(nodes, edges) && NodeExists(nodes, endNode)
      ensures Valid()
      ensures this.nodes == nodes && this.edges == edges && this.mode == mode && this.endNode == endNode
      ensures visited == set i: nat | i < endNode.step :: At(endNode.robot, i)
      ensures forall id | 0 <= id < |revisit| :: revisit[id] == {}
      ensures path == [] && onPath == {}
      ensures forall r | 0 <= r < |nodes| :: enter[r] == -1 && leave[r] == -1
    {
      this.nodes := nodes;
      this.edges := edges;
      this.mode := mode;
      this.endNode := endNode;
      var robot := endNode.robot;
      var v: set<NodeRef> := {};
      var n := nodes[robot][endNode.step].type1Prev;
      while n != Null
        invariant n == Null || (n.At? && n.robot == robot && n.step < endNode.step)
        invariant v == set i: nat | (if n.At? then n.step + 1 else 0) <= i < endNode.step :: At(robot, i)
        decreases if n.At? then n.step + 1 else 0
      {
        v := v + {n};
        n := nodes[robot][n.step].type1Prev;
      }
      visited := v;
      var sets: seq<set<NodeRef>> := [];
      while |sets| < |edges|
        invariant |sets| <= |edges|
        invariant forall id | 0 <= id < |sets| :: sets[id] == {}
      {
        sets := sets + [{}];
      }
      revisit := sets;
      var entering: seq<int> := [];
      while |entering| < |nodes|
        invariant |entering| <= |nodes|
        invariant forall r | 0 <= r < |entering| :: entering[r] == -1
      {
        entering := entering + [-1];
      }
      enter := entering;
      leave := entering;
      path := [];
      onPath := {};
    }

    /** The search from `curr` (src/BTPG.cpp:305-488). It never enters a node
        already on the recursion path; whenever it fails, the path and its
        set are as they were on entry; at the end node it succeeds exactly
        when a Type-1 edge was used or the path holds more than two nodes,
        and on failure there un-marks every path node but the first. */
    method Dfs(curr: NodeRef, hasType1: bool) returns (found: bool)
      requires Valid() && NodeExists(nodes, curr) && curr !in onPath
      requires curr == endNode ==> |path| > 0
      modifies this
      decreases |AllNodes(nodes) - onPath|, 1
      ensures Valid()
      ensures !found ==> path == old(path) && onPath == old(onPath)
      ensures found ==> Reached(nodes, edges, old(path), path, curr, endNode)
      ensures curr == endNode ==> (found <==> hasType1 || |old(path)| > 2)
      ensures curr == endNode ==>
        && path == old(path) && revisit == old(revisit) && enter == old(enter) && leave == old(leave)
        && visited == (if found then old(visited) else old(visited) - PathTail(old(path)))
    {
      if curr != endNode {
        found := Expand(curr, hasType1);
      } else if hasType1 || |path| > 2 {
        found := true;
        assert path[|path|..] + [endNode] == [endNode];
      } else {
        UnmarkPathTail();
        found := false;
      }
    }

    /** The search from a node other than the end node (src/BTPG.cpp:337-487):
        marks it, puts it on the path, tries its outgoing Type-2 edges and
        then its Type-1 successor, and takes it off the path on failure. */
    method Expand(curr: NodeRef, hasType1: bool) returns (found: bool)
      requires Valid() && NodeExists(nodes, curr) && curr !in onPath
      modifies this
      decreases |AllNodes(nodes) - onPath|, 0
      ensures Valid()
      ensures !found ==> path == old(path) && onPath == old(onPath)
      ensures found ==> Reached(nodes, edges, old(path), path, curr, endNode)
    {
      AllNodesHas(nodes, curr);
      PushShrinks(AllNodes(nodes), onPath, curr);
      visited := visited + {curr};
      Push(curr);
      found := ExploreEdges(curr, hasType1);
      if !found {
        var next := nodes[curr.robot][curr.step].type1Next;
        if next != Null && next !in visited && next !in onPath {
          ghost var front := old(path);
          assert Step(nodes, edges, curr, next);
          found := Dfs(next, true);
          if found {
            ReachedBack(nodes, edges, front, path, curr, next, endNode);
          }
        }
        if !found {
          Pop();
        }
      }
    }

    /** Puts a node that is not on it onto the recursion path (src/BTPG.cpp:339-340). */
    method Push(n: NodeRef)
      requires Valid() && n !in onPath
      modifies this
      ensures Valid()
      ensures path == old(path) + [n] && onPath == old(onPath) + {n}
      ensures visited == old(visited) && revisit == old(revisit)
      ensures enter == old(enter) && leave == old(leave)
    {
      path := path + [n];
      onPath := onPath + {n};
    }

    /** Takes the last node off the recursion path (src/BTPG.cpp:484-485). */
    method Pop()
      requires Valid() && |path| > 0
      modifies this
      ensures Valid()
      ensures path == old(path)[..|old(path)| - 1] && onPath == old(onPath) - {old(path)[|old(path)| - 1]}
      ensures visited == old(visited) && revisit == old(revisit)
      ensures enter == old(enter) && leave == old(leave)
    {
      var last := path[|path| - 1];
      path := path[..|path| - 1];
      onPath := onPath - {last};
    }

    /** The loop over the current node's outgoing Type-2 edges
        (src/BTPG.cpp:343-467), stopping at the first success. */
    method ExploreEdges(curr: NodeRef, hasType1: bool) returns (found: bool)
      requires Valid() && NodeExists(nodes, curr) && |path| > 0 && path[|path| - 1] == curr
      modifies this
      decreases |AllNodes(nodes) - onPath|, 3
      ensures Valid()
      ensures !found ==> path == old(path) && onPath == old(onPath)
      ensures found ==> Reached(nodes, edges, old(path)[..|old(path)| - 1], path, curr, endNode)
    {
      var ids := nodes[curr.robot][curr.step].type2Next;
      var k := 0;
      while k < |ids|
        invariant Valid() && path == old(path) && onPath == old(onPath)
        invariant k <= |ids|
      {
        found := ExploreEdge(curr, ids[k], hasType1);
        if found {
          return;
        }
        k := k + 1;
      }
      found := false;
    }

    /** One iteration of the loop over the current node's outgoing edges
        (src/BTPG.cpp:343-467): follows `edge` unless its target is visited
        or on the path or the edge must be skipped; after a failed
        recursion, backtracks over the edge. */
    method ExploreEdge(curr: NodeRef, id: nat, hasType1: bool) returns (found: bool)
      requires Valid() && NodeExists(nodes, curr) && |path| > 0 && path[|path| - 1] == curr
      requires id < |edges| && id in nodes[curr.robot][curr.step].type2Next
      modifies this
      decreases |AllNodes(nodes) - onPath|, 2
      ensures Valid()
      ensures !found ==> path == old(path) && onPath == old(onPath)
      ensures found ==> Reached(nodes, edges, old(path)[..|old(path)| - 1], path, curr, endNode)
    {
      var edge := edges[id];
      var to := edge.nodeTo;
      ghost var front := path[..|path| - 1];
      assert path == front + [curr];
      assert Step(nodes, edges, curr, to);
      if to !in visited && to !in onPath {
        var skip := CheckSkip(curr, edge);
        var toNode := nodes[to.robot][to.step];
        var node := nodes[curr.robot][curr.step];
        if !skip {
          if toNode.robotId != -1 {
            enter := enter[toNode.robotId := edge.edgeId];
          }
          leave := leave[node.robotId := edge.edgeId];
          found := Dfs(to, hasType1);
          if found {
            ReachedBack(nodes, edges, front, path, curr, to, endNode);
            return;
          }
          Backtrack(edge, node.robotId);
        }
      }
      found := false;
    }

    /** Whether the search must not follow `edge` out of the current node
        `curr` even though its target is unvisited and off the path
        (src/BTPG.cpp:350-430). Skipping records, in the revisit set of the
        edge that made the move redundant, the nodes to un-mark when that
        edge is backtracked over. */
    method CheckSkip(curr: NodeRef, edge: Type2Edge) returns (skip: bool)
      requires Valid() && NodeExists(nodes, curr) && NodeExists(nodes, edge.nodeTo)
      requires |path| > 0 && path[|path| - 1] == curr
      modifies this
      ensures Valid()
      ensures visited == old(visited) && path == old(path) && onPath == old(onPath)
      ensures enter == old(enter) && leave == old(leave)
      ensures !skip ==> revisit == old(revisit)
      ensures forall id | 0 <= id < |revisit| :: revisit[id] >= old(revisit[id])
    {
      var node := nodes[curr.robot][curr.step];
      skip := false;
      if edge.isBidirectional {
        if mode == 0 && enter[node.robotId] != -1 {
          var prevId := enter[node.robotId];
          if edge.biPairId == edges[prevId].biPairId {
            // the path's last node is the current one, so only it is revisited
            revisit := revisit[prevId := revisit[prevId] + {curr}];
            skip := true;
          }
        }
        if !skip && mode == 1 && enter[node.robotId] != -1 {
          var prevId := enter[node.robotId];
          var prevNode := edges[prevId].nodeTo;
          if nodes[prevNode.robot][prevNode.step].timeStep < node.timeStep {
            revisit := revisit[prevId := revisit[prevId] + {curr}];
            skip := true;
          }
        }
      }
      var toNode := nodes[edge.nodeTo.robot][edge.nodeTo.step];
      if !skip && mode == 1 && leave[toNode.robotId] != -1 {
        var prevId := leave[toNode.robotId];
        var prevEdge := edges[prevId];
        var prevFrom := nodes[prevEdge.nodeFrom.robot][prevEdge.nodeFrom.step];
        if prevFrom.timeStep > toNode.timeStep && prevEdge.isBidirectional {
          RevisitBackTo(prevId, prevEdge.nodeTo);
          skip := true;
        }
      }
    }

    /** Un-marks every node of the recursion path except the first, walking
        it from the back (src/BTPG.cpp:328-332). */
    method UnmarkPathTail()
      requires Valid() && |path| > 0
      modifies this
      ensures Valid()
      ensures visited == old(visited) - PathTail(path)
      ensures path == old(path) && onPath == old(onPath) && revisit == old(revisit)
      ensures enter == old(enter) && leave == old(leave)
    {
      var v := visited;
      var i := |path| - 1;
      while i >= 1
        invariant 0 <= i < |path|
        invariant v == old(visited) - set j | i < j < |path| :: path[j]
      {
        v := v - {path[i]};
        i := i - 1;
      }
      visited := v;
    }

    /** Adds to revisit set `id` the path nodes from the back up to the last
        occurrence of `target` (src/BTPG.cpp:420-427). */
    method RevisitBackTo(id: nat, target: NodeRef)
      requires Valid() && id < |revisit|
      modifies this
      ensures Valid()
      ensures revisit == old(revisit)[id := old(revisit[id]) + BackTo(path, target)]
      ensures visited == old(visited) && path == old(path) && onPath == old(onPath)
      ensures enter == old(enter) && leave == old(leave)
    {
      var collected := CollectBackTo(path, target);
      revisit := revisit[id := revisit[id] + collected];
    }

    /** What follows a failed exploration of `edge` out of robot `robot`
        (src/BTPG.cpp:448-461): both map entries go back to -1, the nodes
        the edge's revisit set holds are un-marked, and that set is cleared. */
    method Backtrack(edge: Type2Edge, robot: nat)
      requires Valid() && 0 <= edge.edgeId < |edges| && NodeExists(nodes, edge.nodeTo) && robot < |nodes|
      modifies this
      ensures Valid()
      ensures enter == old(enter)[edge.nodeTo.robot := -1]
      ensures leave == old(leave)[robot := -1]
      ensures visited == old(visited) - old(revisit[edge.edgeId])
      ensures revisit == old(revisit)[edge.edgeId := {}]
      ensures path == old(path) && onPath == old(onPath)
    {
      var toNode := nodes[edge.nodeTo.robot][edge.nodeTo.step];
      if toNode.robotId != -1 {
        enter := enter[toNode.robotId := -1];
      }
      leave := leave[robot := -1];
      visited := visited - revisit[edge.edgeId];
      revisit := revisit[edge.edgeId := {}];
    }
  }
}
