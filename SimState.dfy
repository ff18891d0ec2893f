/** The state of one simulation run (src/Sim.cpp) and the invariants every
    step keeps. A run executes a plan graph: node (r, t) is robot r's t-th
    planned cell, and Type-2 edges order nodes of different robots. */
module SimState {
  import opened Util
  import opened Tpg

  /** The three runs of src/Sim.cpp: `Simulate(BTPG*)` honours
      bidirectional pairs, `Simulate(TPG*)` treats every edge as one-way,
      and `SimulateNoDelay` moves every robot it can. */
  datatype Variant = BtpgRun | TpgRun | NoDelayRun

  /** A robot blocked in a pass: it waits to enter `at`, its next node, for
      `blocker`, the source of the first unmet incoming edge. */
  datatype Stop = Stop(at: NodeRef, blocker: NodeRef)

  /** What a run changes: the visit flags and `finishedAgent` (locals of
      `Simulate`), the generated trajectories, the robots' finish times and
      the pairs' `isVisited` flags, and the two counters
      `numBidirectionalEdgesIsUsed` and `totalDelay`. */
  datatype Run = Run(
    visited: seq<seq<bool>>,
    finished: seq<bool>,
    trajectory: seq<seq<Coord>>,
    finishTime: seq<int>,
    pairVisited: seq<bool>,
    used: nat,
    delay: nat)

  /** The graph a run executes: the robots, their node chains, the Type-2
      edge table and, for a BTPG, the bidirectional pairs. */
  datatype Graph = Graph(agents: seq<Agent>, nodes: seq<seq<Node>>, edges: seq<Type2Edge>, pairs: seq<BiPair>)

  /** The bidirectional pairs a BTPG run consults are in range. */
  predicate PairsLinked(edges: seq<Type2Edge>, pairs: seq<BiPair>)
  {
    && (forall id | 0 <= id < |edges| :: edges[id].isBidirectional ==> 0 <= edges[id].biPairId < |pairs|)
    && (forall p | 0 <= p < |pairs| :: 0 <= pairs[p].flippedId < |edges|)
  }

  /** What the simulator relies on: a well-formed graph whose paths each
      have a next node to move to (a one-node path would make the first
      step follow a missing successor). */
  predicate PlanOk(variant: Variant, g: Graph)
  {
    && GraphOk(g.agents, g.nodes, g.edges)
    && (forall r | 0 <= r < |g.nodes| :: |g.nodes[r]| >= 2)
    && (variant == BtpgRun ==> PairsLinked(g.edges, g.pairs))
  }

  /** The planned cells, robot by robot. */
  function Plan(nodes: seq<seq<Node>>): (plan: seq<seq<Coord>>)
    ensures |plan| == |nodes|
    ensures forall r | 0 <= r < |nodes| :: |plan[r]| == |nodes[r]|
    ensures forall r, t | 0 <= r < |nodes| && 0 <= t < |nodes[r]| :: plan[r][t] == nodes[r][t].coord
  {
    seq(|nodes|, r requires 0 <= r < |nodes| => seq(|nodes[r]|, t requires 0 <= t < |nodes[r]| => nodes[r][t].coord))
  }

  /** `std::find(v.begin(), v.end(), false) - v.begin()`: the index of the
      first unvisited entry, or the length when there is none. */
  function FirstUnvisited(v: seq<bool>): (k: nat)
    ensures k <= |v| && (k < |v| ==> !v[k])
    ensures forall j | 0 <= j < k :: v[j]
  {
    if |v| == 0 || !v[0] then 0 else 1 + FirstUnvisited(v[1..])
  }

  predicate Sized(nodes: seq<seq<Node>>, pairs: seq<BiPair>, run: Run)
  {
    && |run.visited| == |nodes| && |run.finished| == |nodes|
    && |run.trajectory| == |nodes| && |run.finishTime| == |nodes|
    && |run.pairVisited| == |pairs|
  }

  /** Robot r has visited exactly the first |trajectory[r]| nodes of its
      path (at least its start), its trajectory lists their cells, and it
      is finished exactly when it has visited them all. */
  predicate RobotOk(nodes: seq<seq<Node>>, run: Run, r: nat)
    requires Sized(nodes, [], run.(pairVisited := [])) && r < |nodes|
  {
    && |run.visited[r]| == |nodes[r]|
    && 1 <= |run.trajectory[r]| <= |nodes[r]|
    && (forall j | 0 <= j < |nodes[r]| :: run.visited[r][j] == (j < |run.trajectory[r]|))
    && (forall j | 0 <= j < |run.trajectory[r]| :: run.trajectory[r][j] == nodes[r][j].coord)
    && (run.finished[r] <==> |run.trajectory[r]| == |nodes[r]|)
  }

  predicate RunOk(nodes: seq<seq<Node>>, pairs: seq<BiPair>, run: Run)
  {
    Sized(nodes, pairs, run) && forall r | 0 <= r < |nodes| :: RobotOk(nodes, run, r)
  }

  /** Whether a node counts as visited in `run`. */
  predicate Visited(run: Run, n: NodeRef)
  {
    n.At? && n.robot < |run.visited| && n.step < |run.visited[n.robot]| && run.visited[n.robot][n.step]
  }

  /** An edge is honoured when its source has been visited or, in a BTPG
      run, when it is one direction of a pair that has been claimed. */
  predicate Honored(variant: Variant, run: Run, e: Type2Edge)
  {
    || Visited(run, e.nodeFrom)
    || (variant == BtpgRun && e.isBidirectional && 0 <= e.biPairId < |run.pairVisited| && run.pairVisited[e.biPairId])
  }

  /** Every edge into node (r, t) is honoured. */
  predicate NodeHonored(variant: Variant, nodes: seq<seq<Node>>, edges: seq<Type2Edge>, run: Run, r: nat, t: nat)
    requires r < |nodes| && t < |nodes[r]|
  {
    forall k | 0 <= k < |nodes[r][t].type2Prev| ::
      nodes[r][t].type2Prev[k] < |edges| && Honored(variant, run, edges[nodes[r][t].type2Prev[k]])
  }

  /** The safety invariant of a run: every node a robot has moved into has
      all its incoming edges honoured. */
  predicate Closed(variant: Variant, nodes: seq<seq<Node>>, edges: seq<Type2Edge>, run: Run)
    requires |run.trajectory| == |nodes|
  {
    forall r, t | 0 <= r < |nodes| && 1 <= t < |run.trajectory[r]| && t < |nodes[r]| ::
      NodeHonored(variant, nodes, edges, run, r, t)
  }

  /** From `a` to `b` no robot went back and no claimed pair was released. */
  predicate Grown(nodes: seq<seq<Node>>, a: Run, b: Run)
    requires |a.trajectory| == |b.trajectory| == |a.finished| == |b.finished| == |nodes|
  {
    && (forall r | 0 <= r < |nodes| :: |a.trajectory[r]| <= |b.trajectory[r]|)
    && (forall r | 0 <= r < |nodes| :: a.finished[r] ==> b.finished[r])
    && |a.pairVisited| == |b.pairVisited|
    && (forall p | 0 <= p < |a.pairVisited| :: a.pairVisited[p] ==> b.pairVisited[p])
  }

  lemma GrownTrans(nodes: seq<seq<Node>>, a: Run, b: Run, c: Run)
    requires |a.trajectory| == |b.trajectory| == |c.trajectory| == |nodes|
    requires |a.finished| == |b.finished| == |c.finished| == |nodes|
    requires Grown(nodes, a, b) && Grown(nodes, b, c)
    ensures Grown(nodes, a, c)
  {
  }

  /** Visits and claims only accumulate, so an honoured edge stays honoured. */
  lemma HonoredGrows(variant: Variant, nodes: seq<seq<Node>>, pairs: seq<BiPair>, a: Run, b: Run, e: Type2Edge)
    requires RunOk(nodes, pairs, a) && RunOk(nodes, pairs, b) && Grown(nodes, a, b)
    requires Honored(variant, a, e)
    ensures Honored(variant, b, e)
  {
    if Visited(a, e.nodeFrom) {
      var r, t := e.nodeFrom.robot, e.nodeFrom.step;
      assert RobotOk(nodes, a, r) && RobotOk(nodes, b, r);
      assert b.visited[r][t];
    }
  }

  /** The invariant carries over to a grown run as long as each node newly
      entered has its incoming edges honoured. */
  lemma ClosedGrows(variant: Variant, nodes: seq<seq<Node>>, edges: seq<Type2Edge>, pairs: seq<BiPair>, a: Run, b: Run)
    requires RunOk(nodes, pairs, a) && RunOk(nodes, pairs, b) && Grown(nodes, a, b)
    requires Closed(variant, nodes, edges, a)
    requires forall r, t | 0 <= r < |nodes| && |a.trajectory[r]| <= t < |b.trajectory[r]| && t < |nodes[r]| ::
      NodeHonored(variant, nodes, edges, b, r, t)
    ensures Closed(variant, nodes, edges, b)
  {
    forall r, t | 0 <= r < |nodes| && 1 <= t < |b.trajectory[r]| && t < |nodes[r]|
      ensures NodeHonored(variant, nodes, edges, b, r, t)
    {
      if t < |a.trajectory[r]| {
        assert NodeHonored(variant, nodes, edges, a, r, t);
        forall k | 0 <= k < |nodes[r][t].type2Prev|
          ensures Honored(variant, b, edges[nodes[r][t].type2Prev[k]])
        {
          HonoredGrows(variant, nodes, pairs, a, b, edges[nodes[r][t].type2Prev[k]]);
        }
      }
    }
  }

  /** The nodes still to visit, over robots 0 .. n-1: the measure that makes
      each timestep's passes come to an end. */
  function Left(nodes: seq<seq<Node>>, traj: seq<seq<Coord>>, n: nat): nat
    requires n <= |nodes| == |traj|
  {
    if n == 0 then 0
    else Left(nodes, traj, n - 1) + (if |traj[n - 1]| <= |nodes[n - 1]| then |nodes[n - 1]| - |traj[n - 1]| else 0)
  }

  function Remaining(nodes: seq<seq<Node>>, run: Run): nat
    requires |run.trajectory| == |nodes|
  {
    Left(nodes, run.trajectory, |nodes|)
  }

  /** Nothing left to visit means every robot has reached its goal. */
  lemma {:induction false} NoneLeft(nodes: seq<seq<Node>>, pairs: seq<BiPair>, run: Run, n: nat)
    requires RunOk(nodes, pairs, run) && n <= |nodes| && Left(nodes, run.trajectory, n) == 0
    ensures forall r | 0 <= r < n :: run.finished[r]
  {
    if n > 0 {
      NoneLeft(nodes, pairs, run, n - 1);
      assert RobotOk(nodes, run, n - 1);
    }
  }

  /** One robot moving one node further leaves one node fewer to visit. */
  lemma {:induction false} LeftMoved(nodes: seq<seq<Node>>, a: seq<seq<Coord>>, b: seq<seq<Coord>>, i: nat, n: nat)
    requires n <= |nodes| == |a| == |b| && i < |nodes|
    requires |a[i]| < |nodes[i]| && |b[i]| == |a[i]| + 1
    requires forall r | 0 <= r < |nodes| && r != i :: |b[r]| == |a[r]|
    ensures Left(nodes, b, n) + (if i < n then 1 else 0) == Left(nodes, a, n)
  {
    if n > 0 {
      LeftMoved(nodes, a, b, i, n - 1);
    }
  }

  /** Robots that only move forward leave no more nodes to visit. */
  lemma {:induction false} LeftShrinks(nodes: seq<seq<Node>>, a: seq<seq<Coord>>, b: seq<seq<Coord>>, n: nat)
    requires n <= |nodes| == |a| == |b|
    requires forall r | 0 <= r < |nodes| :: |a[r]| <= |b[r]| <= |nodes[r]|
    ensures Left(nodes, b, n) <= Left(nodes, a, n)
    ensures Left(nodes, b, n) == Left(nodes, a, n) ==> forall r | 0 <= r < n :: |b[r]| == |a[r]|
  {
    if n > 0 {
      LeftShrinks(nodes, a, b, n - 1);
    }
  }

  /** The state after robot i enters its next node at timestep `now`: the
      node is marked visited, its cell appended to the trajectory, and if it
      is the path's last node the robot is finished at `now`. */
  predicate Moved(nodes: seq<seq<Node>>, a: Run, b: Run, i: nat, now: int)
    requires Sized(nodes, [], a.(pairVisited := [])) && Sized(nodes, [], b.(pairVisited := [])) && i < |nodes|
  {
    && |b.trajectory[i]| == |a.trajectory[i]| + 1
    && b.finishTime[i] == (if b.finished[i] then now else a.finishTime[i])
    && (forall r | 0 <= r < |nodes| && r != i ::
          && b.trajectory[r] == a.trajectory[r] && b.visited[r] == a.visited[r]
          && b.finished[r] == a.finished[r] && b.finishTime[r] == a.finishTime[r])
    && b.pairVisited == a.pairVisited && b.used == a.used && b.delay == a.delay
  }

  /** `s` with its entries at the positions in `ids` set. */
  predicate Marked(a: seq<bool>, b: seq<bool>, ids: seq<nat>)
  {
    && |b| == |a|
    && (forall k | 0 <= k < |ids| :: ids[k] < |a|)
    && (forall p | 0 <= p < |a| :: b[p] == (a[p] || p in ids))
  }

  /** No value occurs twice. */
  predicate Distinct<T(==)>(s: seq<T>)
  {
    forall a, b | 0 <= a < b < |s| :: s[a] != s[b]
  }

  /** `v.erase(std::remove(v.begin(), v.end(), x), v.end())`: every
      occurrence of x removed, the rest in order. */
  function Without(s: seq<nat>, x: nat): (res: seq<nat>)
    ensures forall y :: y in res <==> y in s && y != x
    ensures |res| <= |s|
    ensures Distinct(s) ==> Distinct(res)
  {
    if |s| == 0 then []
    else
      var rest := Without(s[1..], x);
      assert forall y :: y in s[1..] ==> y in s;
      if s[0] == x then rest
      else
        assert Distinct(s) ==> s[0] !in s[1..];
        [s[0]] + rest
  }

  /** The robots 0 .. n-1 in order: the first re-check list of a timestep. */
  function AllRobots(n: nat): (s: seq<nat>)
    ensures |s| == n && Distinct(s)
    ensures forall k | 0 <= k < n :: s[k] == k
  {
    seq(n, k requires 0 <= k => k)
  }

  /** In a BTPG run, an edge of an unclaimed pair does not hold a robot
      back: entering claims the pair instead. */
  predicate Claimable(variant: Variant, run: Run, e: Type2Edge)
  {
    variant == BtpgRun && e.isBidirectional && 0 <= e.biPairId < |run.pairVisited| && !run.pairVisited[e.biPairId]
  }

  /** An incoming edge lets a robot through: its source is one of the nodes
      entered together (a rotation), its pair can be claimed, or its source
      has been visited. */
  predicate Passable(variant: Variant, run: Run, exempt: seq<NodeRef>, e: Type2Edge)
  {
    e.nodeFrom in exempt || Claimable(variant, run, e) || Visited(run, e.nodeFrom)
  }

  /** Every edge into node n lets a robot through. */
  predicate Open(variant: Variant, g: Graph, run: Run, exempt: seq<NodeRef>, n: NodeRef)
    requires NodeExists(g.nodes, n) && ListsOk(g.nodes, g.edges)
  {
    forall k | 0 <= k < |g.nodes[n.robot][n.step].type2Prev| ::
      Passable(variant, run, exempt, g.edges[g.nodes[n.robot][n.step].type2Prev[k]])
  }

  /** Entering past e claims e's pair when e's source is not exempt. */
  predicate ClaimedIf(variant: Variant, run: Run, exempt: seq<NodeRef>, e: Type2Edge, claims: seq<nat>)
  {
    e.nodeFrom !in exempt && Claimable(variant, run, e) ==> e.biPairId in claims
  }

  /** The pairs of the edges into n that entering n claims. */
  predicate ClaimsCover(variant: Variant, g: Graph, run: Run, exempt: seq<NodeRef>, n: NodeRef, claims: seq<nat>)
    requires NodeExists(g.nodes, n) && ListsOk(g.nodes, g.edges)
  {
    forall k | 0 <= k < |g.nodes[n.robot][n.step].type2Prev| ::
      ClaimedIf(variant, run, exempt, g.edges[g.nodes[n.robot][n.step].type2Prev[k]], claims)
  }

  /** The next node of an unfinished robot. */
  function NextNode(run: Run, i: nat): NodeRef
    requires i < |run.trajectory|
  {
    At(i, |run.trajectory[i]|)
  }

  /** Robots that finished between `a` and `b` did so at timestep `now`;
      the others keep their recorded time. */
  predicate Timed(nodes: seq<seq<Node>>, a: Run, b: Run, now: int)
    requires Sized(nodes, [], a.(pairVisited := [])) && Sized(nodes, [], b.(pairVisited := []))
  {
    forall r | 0 <= r < |nodes| ::
      b.finishTime[r] == (if b.finished[r] && !a.finished[r] then now else a.finishTime[r])
  }

  /** Each robot entered at most one node between `a` and `b`. */
  predicate AtMostOne(nodes: seq<seq<Node>>, a: Run, b: Run)
    requires |a.trajectory| == |b.trajectory| == |nodes|
  {
    forall r | 0 <= r < |nodes| :: |b.trajectory[r]| <= |a.trajectory[r]| + 1
  }

  /** The counter `numBidirectionalEdgesIsUsed` grows by one for each
      claimed pair whose flipped edge leaves robot i: robot i went first
      against the pair's original order. */
  function Flips(g: Graph, claims: seq<nat>, i: nat): nat
    requires ClaimsOk(g, claims)
  {
    if |claims| == 0 then 0
    else
      var e := g.edges[g.pairs[claims[|claims| - 1]].flippedId];
      Flips(g, claims[..|claims| - 1], i) + (if e.nodeFrom.At? && e.nodeFrom.robot == i then 1 else 0)
  }

  /** Every claimed pair exists and names an existing flipped edge. */
  predicate ClaimsOk(g: Graph, claims: seq<nat>)
  {
    forall k | 0 <= k < |claims| :: claims[k] < |g.pairs| && 0 <= g.pairs[claims[k]].flippedId < |g.edges|
  }

  /** A distinct list of numbers below n has at most n entries. */
  lemma {:induction false} DistinctBound(s: seq<nat>, n: nat)
    requires Distinct(s) && forall k | 0 <= k < |s| :: s[k] < n
    ensures |s| <= n
  {
    if |s| > 0 {
      assert s[0] < n;
      if k :| 0 <= k < |s| && s[k] == n - 1 {
        var s' := s[..k] + s[k + 1..];
        assert forall j | 0 <= j < |s'| :: s'[j] == (if j < k then s[j] else s[j + 1]);
        DistinctBound(s', n - 1);
      } else {
        DistinctBound(s, n - 1);
      }
    }
  }

  /** A run in which every robot has finished has retraced the plan. */
  lemma CompleteIsPlan(nodes: seq<seq<Node>>, pairs: seq<BiPair>, run: Run)
    requires RunOk(nodes, pairs, run)
    requires forall r | 0 <= r < |nodes| :: run.finished[r]
    ensures run.trajectory == Plan(nodes)
  {
    forall r | 0 <= r < |nodes|
      ensures run.trajectory[r] == Plan(nodes)[r]
    {
      assert RobotOk(nodes, run, r);
    }
  }

  /** A node entered with every incoming edge passable, once its claims
      are recorded and the nodes entered with it are visited, has every
      incoming edge honoured. */
  lemma EnteredHonored(variant: Variant, g: Graph, a: Run, b: Run, exempt: seq<NodeRef>, n: NodeRef, claims: seq<nat>)
    requires PlanOk(variant, g) && RunOk(g.nodes, g.pairs, a) && RunOk(g.nodes, g.pairs, b) && Grown(g.nodes, a, b)
    requires NodeExists(g.nodes, n)
    requires Open(variant, g, a, exempt, n) && ClaimsCover(variant, g, a, exempt, n, claims)
    requires forall k | 0 <= k < |claims| :: claims[k] < |b.pairVisited| && b.pairVisited[claims[k]]
    requires forall m | 0 <= m < |exempt| :: Visited(b, exempt[m])
    ensures NodeHonored(variant, g.nodes, g.edges, b, n.robot, n.step)
  {
    var prev := g.nodes[n.robot][n.step].type2Prev;
    forall k | 0 <= k < |prev|
      ensures Honored(variant, b, g.edges[prev[k]])
    {
      var e := g.edges[prev[k]];
      assert Passable(variant, a, exempt, e);
      if e.nodeFrom in exempt {
        var m :| 0 <= m < |exempt| && exempt[m] == e.nodeFrom;
      } else if Claimable(variant, a, e) {
        assert ClaimedIf(variant, a, exempt, e, claims);
        var j :| 0 <= j < |claims| && claims[j] == e.biPairId;
      } else {
        HonoredGrows(variant, g.nodes, g.pairs, a, b, e);
      }
    }
  }

  /** Robot i has a next node and every edge into it lets the robot through. */
  predicate Ready(variant: Variant, g: Graph, run: Run, i: nat)
    requires ListsOk(g.nodes, g.edges) && i < |g.nodes| == |run.trajectory|
  {
    |run.trajectory[i]| < |g.nodes[i]| && Open(variant, g, run, [], NextNode(run, i))
  }

  /** The first unvisited entry of an unfinished robot is its next node. */
  lemma NextUnvisited(nodes: seq<seq<Node>>, pairs: seq<BiPair>, run: Run, i: nat)
    requires RunOk(nodes, pairs, run) && i < |nodes| && !run.finished[i]
    ensures |run.trajectory[i]| < |nodes[i]|
    ensures FirstUnvisited(run.visited[i]) == |run.trajectory[i]|
  {
    assert RobotOk(nodes, run, i);
    var k := FirstUnvisited(run.visited[i]);
    assert !run.visited[i][|run.trajectory[i]|];
    assert k < |run.visited[i]| ==> run.visited[i][k] == (k < |run.trajectory[i]|);
  }

  /** A run in which only robot i changed, and robot i is consistent, is
      consistent. */
  lemma OthersKept(nodes: seq<seq<Node>>, pairs: seq<BiPair>, a: Run, b: Run, i: nat)
    requires RunOk(nodes, pairs, a) && Sized(nodes, pairs, b) && i < |nodes| && RobotOk(nodes, b, i)
    requires forall r | 0 <= r < |nodes| && r != i ::
      b.visited[r] == a.visited[r] && b.trajectory[r] == a.trajectory[r] && b.finished[r] == a.finished[r]
    ensures RunOk(nodes, pairs, b)
  {
    forall r | 0 <= r < |nodes| && r != i
      ensures RobotOk(nodes, b, r)
    {
      assert RobotOk(nodes, a, r);
    }
  }

  /** Changing only the pair flags and the counters keeps a run consistent. */
  lemma CountersChanged(nodes: seq<seq<Node>>, pairs: seq<BiPair>, a: Run, b: Run)
    requires RunOk(nodes, pairs, a) && |b.pairVisited| == |pairs|
    requires b.visited == a.visited && b.finished == a.finished
    requires b.trajectory == a.trajectory && b.finishTime == a.finishTime
    ensures RunOk(nodes, pairs, b)
  {
    forall r | 0 <= r < |nodes|
      ensures RobotOk(nodes, b, r)
    {
      assert RobotOk(nodes, a, r);
    }
  }

  /** Changing the delay counter keeps a run well formed and closed. */
  lemma DelayChanged(variant: Variant, nodes: seq<seq<Node>>, edges: seq<Type2Edge>, pairs: seq<BiPair>, a: Run, d: nat)
    requires RunOk(nodes, pairs, a) && Closed(variant, nodes, edges, a)
    ensures RunOk(nodes, pairs, a.(delay := d)) && Closed(variant, nodes, edges, a.(delay := d))
  {
    var b := a.(delay := d);
    CountersChanged(nodes, pairs, a, b);
    forall r, t | 0 <= r < |nodes| && 1 <= t < |b.trajectory[r]| && t < |nodes[r]|
      ensures NodeHonored(variant, nodes, edges, b, r, t)
    {
      assert NodeHonored(variant, nodes, edges, a, r, t);
    }
  }

  /** In a distinct list, an entry does not occur before its position. */
  lemma DistinctPrefix<T>(s: seq<T>, k: nat)
    requires Distinct(s) && k < |s|
    ensures s[k] !in s[..k]
  {
  }

  /** Within one pass from `a` to `b`: the run grew, robots that finished
      did so at `now`, and only robots in `touched` entered a node, one
      node each. */
  predicate Within(nodes: seq<seq<Node>>, a: Run, b: Run, now: int, touched: seq<nat>)
    requires Sized(nodes, [], a.(pairVisited := [])) && Sized(nodes, [], b.(pairVisited := []))
  {
    && Grown(nodes, a, b) && Timed(nodes, a, b, now)
    && forall r | 0 <= r < |nodes| && |b.trajectory[r]| != |a.trajectory[r]| ::
      r in touched && |b.trajectory[r]| == |a.trajectory[r]| + 1
  }

  lemma WithinTrans(nodes: seq<seq<Node>>, a: Run, b: Run, c: Run, now: int, done: seq<nat>, i: nat)
    requires Sized(nodes, [], a.(pairVisited := [])) && Sized(nodes, [], b.(pairVisited := [])) && Sized(nodes, [], c.(pairVisited := []))
    requires Within(nodes, a, b, now, done) && Within(nodes, b, c, now, [i]) && i !in done
    ensures Within(nodes, a, c, now, done + [i])
  {
  }

  lemma WithinWider(nodes: seq<seq<Node>>, a: Run, b: Run, now: int, touched: seq<nat>, wider: seq<nat>)
    requires Sized(nodes, [], a.(pairVisited := [])) && Sized(nodes, [], b.(pairVisited := []))
    requires Within(nodes, a, b, now, touched) && forall r | r in touched :: r in wider
    ensures Within(nodes, a, b, now, wider)
  {
  }

  /** Each node in `members` is the next node of its (unfinished) robot. */
  predicate Waiting(nodes: seq<seq<Node>>, run: Run, members: seq<NodeRef>)
    requires |run.trajectory| == |nodes|
  {
    forall m | 0 <= m < |members| ::
      && members[m].At? && members[m].robot < |nodes|
      && members[m].step == |run.trajectory[members[m].robot]| < |nodes[members[m].robot]|
  }

  /** The robots of a list of nodes (0 stands in for a null reference). */
  function RobotsOf(members: seq<NodeRef>): (rs: seq<nat>)
    ensures |rs| == |members|
    ensures forall m | 0 <= m < |members| && members[m].At? :: rs[m] == members[m].robot
  {
    if |members| == 0 then []
    else RobotsOf(members[..|members| - 1]) + [if members[|members| - 1].At? then members[|members| - 1].robot else 0]
  }

  /** Distinct waiting nodes belong to distinct robots. */
  lemma WaitingRobots(nodes: seq<seq<Node>>, run: Run, members: seq<NodeRef>)
    requires |run.trajectory| == |nodes| && Waiting(nodes, run, members) && Distinct(members)
    ensures forall a, b | 0 <= a < b < |members| :: members[a].robot != members[b].robot
  {
  }

  /** The members whose robot may not move this timestep. */
  function Unmovable(members: seq<NodeRef>, movable: seq<nat>): nat
  {
    if |members| == 0 then 0
    else
      var last := members[|members| - 1];
      Unmovable(members[..|members| - 1], movable) + (if last.At? && last.robot in movable then 0 else 1)
  }
}
