/** One simulated timestep (src/Sim.cpp:451-849): passes over the robots
    still to check, each followed by a search for a rotation, until a pass
    moves nobody. The three variants of the original differ only where
    `Variant` says. */
module SimStep {
  import opened Util
  import opened Tpg
  import opened SimState

  /** What a pass did with one robot. */
  datatype Visit = Skipped | Blocked(stop: Stop) | Held | Advanced

  /** The walk from a robot's first node along its Type-1 successors to
      the node at position k. */
  method NodeOnPath(g: Graph, i: nat, k: nat) returns (n: NodeRef)
    requires AgentsOk(g.agents, g.nodes) && ChainsOk(g.nodes)
    requires i < |g.nodes| && k < |g.nodes[i]|
    ensures n == At(i, k)
  {
    n := g.agents[i].type1Next;
    var j := 0;
    while j < k
      invariant 0 <= j <= k && n == At(i, j)
    {
      n := g.nodes[n.robot][n.step].type1Next;
      j := j + 1;
    }
  }

  /** The source of the first edge among prev[k..] that does not let a
      robot through, or Null when every one does. */
  function FirstBlocker(variant: Variant, edges: seq<Type2Edge>, run: Run, exempt: seq<NodeRef>, prev: seq<nat>, k: nat): NodeRef
    requires forall j | 0 <= j < |prev| :: prev[j] < |edges|
    decreases |prev| - k
  {
    if k >= |prev| then Null
    else if !Passable(variant, run, exempt, edges[prev[k]]) then edges[prev[k]].nodeFrom
    else FirstBlocker(variant, edges, run, exempt, prev, k + 1)
  }

  /** The robot a robot waiting at n is recorded to wait for: the source
      of the first unmet edge into n. */
  function BlockerOf(variant: Variant, g: Graph, run: Run, n: NodeRef): NodeRef
    requires ListsOk(g.nodes, g.edges) && NodeExists(g.nodes, n)
  {
    FirstBlocker(variant, g.edges, run, [], g.nodes[n.robot][n.step].type2Prev, 0)
  }

  /** The scan over the edges into node n: an edge from a node in `exempt`
      is skipped, an unclaimed bidirectional pair (BTPG only) is collected
      and skipped, and the first edge from an unvisited node blocks. */
  method CheckIncoming(variant: Variant, g: Graph, run: Run, n: NodeRef, exempt: seq<NodeRef>)
      returns (clear: bool, blocker: NodeRef, claims: seq<nat>)
    requires ListsOk(g.nodes, g.edges) && NodeExists(g.nodes, n)
    requires |run.pairVisited| == |g.pairs| && (variant == BtpgRun ==> PairsLinked(g.edges, g.pairs))
    ensures clear <==> Open(variant, g, run, exempt, n)
    ensures clear ==> ClaimsCover(variant, g, run, exempt, n, claims)
    ensures ClaimsOk(g, claims) && (variant != BtpgRun ==> claims == [])
    ensures !clear ==> exists k | 0 <= k < |g.nodes[n.robot][n.step].type2Prev| ::
      var e := g.edges[g.nodes[n.robot][n.step].type2Prev[k]];
      !Passable(variant, run, exempt, e) && blocker == e.nodeFrom
    ensures !clear ==> blocker == FirstBlocker(variant, g.edges, run, exempt, g.nodes[n.robot][n.step].type2Prev, 0)
  {
    var prev := g.nodes[n.robot][n.step].type2Prev;
    clear, blocker, claims := true, Null, [];
    var k := 0;
    while k < |prev| && clear
      invariant 0 <= k <= |prev|
      invariant clear ==> forall k' | 0 <= k' < k :: Passable(variant, run, exempt, g.edges[prev[k']])
      invariant clear ==> forall k' | 0 <= k' < k :: ClaimedIf(variant, run, exempt, g.edges[prev[k']], claims)
      invariant ClaimsOk(g, claims) && (variant != BtpgRun ==> claims == [])
      invariant !clear ==>
        0 < k && !Passable(variant, run, exempt, g.edges[prev[k - 1]]) && blocker == g.edges[prev[k - 1]].nodeFrom
      invariant FirstBlocker(variant, g.edges, run, exempt, prev, 0) ==
        if clear then FirstBlocker(variant, g.edges, run, exempt, prev, k) else blocker
    {
      var e := g.edges[prev[k]];
      if e.nodeFrom in exempt {
      } else if variant == BtpgRun && e.isBidirectional && !run.pairVisited[e.biPairId] {
        claims := claims + [e.biPairId];
      } else if !Visited(run, e.nodeFrom) {
        clear, blocker := false, e.nodeFrom;
      }
      k := k + 1;
    }
  }

  /** Marks the claimed pairs visited, counting those whose flipped edge
      leaves robot i. */
  method ClaimPairs(g: Graph, claims: seq<nat>, i: nat, visited: seq<bool>, used: nat)
      returns (visited': seq<bool>, used': nat)
    requires ClaimsOk(g, claims) && |visited| == |g.pairs|
    ensures Marked(visited, visited', claims)
    ensures used' == used + Flips(g, claims, i)
  {
    visited', used' := visited, used;
    var k := 0;
    while k < |claims|
      invariant 0 <= k <= |claims|
      invariant Marked(visited, visited', claims[..k])
      invariant used' == used + Flips(g, claims[..k], i)
    {
      var e := g.edges[g.pairs[claims[k]].flippedId];
      if e.nodeFrom.At? && e.nodeFrom.robot == i {
        used' := used' + 1;
      }
      visited' := visited'[claims[k] := true];
      assert claims[..k + 1][..k] == claims[..k];
      k := k + 1;
    }
    assert claims[..k] == claims;
  }

  /** Marks the claimed pairs visited (the rotation's claims, uncounted). */
  method MarkPairs(visited: seq<bool>, claims: seq<nat>) returns (visited': seq<bool>)
    requires forall k | 0 <= k < |claims| :: claims[k] < |visited|
    ensures Marked(visited, visited', claims)
  {
    visited' := visited;
    var k := 0;
    while k < |claims|
      invariant 0 <= k <= |claims|
      invariant Marked(visited, visited', claims[..k])
    {
      visited' := visited'[claims[k] := true];
      assert claims[..k + 1] == claims[..k] + [claims[k]];
      k := k + 1;
    }
    assert claims[..k] == claims;
  }

  /** Robot i enters node `step` of its path, the node n (src/Sim.cpp:503-510
      in a pass, 816-828 in a rotation): the node is marked visited, its
      cell appended to the trajectory, and if it is the last node the robot
      is finished at timestep `now`. */
  method Enter(g: Graph, run: Run, i: nat, step: nat, n: NodeRef, now: int) returns (run': Run)
    requires AgentsOk(g.agents, g.nodes) && RunOk(g.nodes, g.pairs, run)
    requires i < |g.nodes| && !run.finished[i] && step == |run.trajectory[i]| && n == At(i, step)
    ensures RunOk(g.nodes, g.pairs, run') && Grown(g.nodes, run, run') && Timed(g.nodes, run, run', now)
    ensures |run'.trajectory[i]| == |run.trajectory[i]| + 1
    ensures run'.finished[i] <==> step == |g.nodes[i]| - 1
    ensures forall r | 0 <= r < |g.nodes| && r != i :: run'.trajectory[r] == run.trajectory[r]
    ensures run'.pairVisited == run.pairVisited && run'.used == run.used && run'.delay == run.delay
    ensures Remaining(g.nodes, run') + 1 == Remaining(g.nodes, run)
  {
    assert RobotOk(g.nodes, run, i);
    var done := step == g.agents[i].pathLength - 1;
    run' := run.(
      visited := run.visited[i := run.visited[i][step := true]],
      finished := if done then run.finished[i := true] else run.finished,
      finishTime := if done then run.finishTime[i := now] else run.finishTime,
      trajectory := run.trajectory[i := run.trajectory[i] + [g.nodes[n.robot][n.step].coord]]);
    assert RobotOk(g.nodes, run', i);
    OthersKept(g.nodes, g.pairs, run, run', i);
    LeftMoved(g.nodes, run.trajectory, run'.trajectory, i, |g.nodes|);
  }

  /** A robot whose edges all let it through enters its next node and
      claims the pairs it passed (src/Sim.cpp:503-519); the run stays safe. */
  method EnterPassed(variant: Variant, g: Graph, run: Run, i: nat, node: NodeRef, claims: seq<nat>, now: int)
      returns (run': Run)
    requires PlanOk(variant, g) && RunOk(g.nodes, g.pairs, run) && Closed(variant, g.nodes, g.edges, run)
    requires i < |g.nodes| && !run.finished[i] && node == NextNode(run, i)
    requires Ready(variant, g, run, i) && ClaimsCover(variant, g, run, [], node, claims)
    requires ClaimsOk(g, claims) && (variant != BtpgRun ==> claims == [])
    ensures RunOk(g.nodes, g.pairs, run') && Closed(variant, g.nodes, g.edges, run')
    ensures Grown(g.nodes, run, run') && Timed(g.nodes, run, run', now)
    ensures |run'.trajectory[i]| == |run.trajectory[i]| + 1 && run'.delay == run.delay
    ensures forall r | 0 <= r < |g.nodes| && r != i :: run'.trajectory[r] == run.trajectory[r]
    ensures Marked(run.pairVisited, run'.pairVisited, claims) && run'.used == run.used + Flips(g, claims, i)
    ensures Remaining(g.nodes, run') + 1 == Remaining(g.nodes, run)
  {
    NextUnvisited(g.nodes, g.pairs, run, i);
    var moved := Enter(g, run, i, node.step, node, now);
    var pairs, used := ClaimPairs(g, claims, i, moved.pairVisited, moved.used);
    run' := moved.(pairVisited := pairs, used := used);
    CountersChanged(g.nodes, g.pairs, moved, run');
    EnteredHonored(variant, g, run, run', [], node, claims);
    ClosedGrows(variant, g.nodes, g.edges, g.pairs, run, run');
  }

  /** One robot's turn in a pass (src/Sim.cpp:470-524): a finished robot is
      skipped; otherwise its next node is found, and the robot is blocked,
      held (its edges allow the move but it may not move this timestep;
      the TPG run counts a delay), or it enters the node, claiming the pairs
      it passed. */
  method VisitRobot(variant: Variant, g: Graph, movable: seq<nat>, run: Run, i: nat, now: int)
      returns (run': Run, visit: Visit, ghost claims: seq<nat>)
    requires PlanOk(variant, g) && RunOk(g.nodes, g.pairs, run) && Closed(variant, g.nodes, g.edges, run)
    requires i < |g.nodes|
    ensures RunOk(g.nodes, g.pairs, run') && Closed(variant, g.nodes, g.edges, run')
    ensures Within(g.nodes, run, run', now, [i])
    ensures forall r | 0 <= r < |g.nodes| && r != i :: run'.trajectory[r] == run.trajectory[r]
    ensures visit == Skipped <==> run.finished[i]
    ensures visit.Blocked? <==> !run.finished[i] && !Ready(variant, g, run, i)
    ensures visit == Advanced <==>
      !run.finished[i] && Ready(variant, g, run, i) && (variant == NoDelayRun || i in movable)
    ensures visit.Blocked? ==>
      && |run.trajectory[i]| < |g.nodes[i]| && visit.stop.at == NextNode(run, i) && !Visited(run, visit.stop.blocker)
      && visit.stop.blocker == BlockerOf(variant, g, run, NextNode(run, i))
    ensures visit == Held ==> run' == run.(delay := run.delay + (if variant == TpgRun then 1 else 0))
    ensures visit == Skipped || visit.Blocked? ==> run' == run
    ensures visit == Skipped ==> StopsOf(variant, g, run, [i]) == []
    ensures visit.Blocked? ==> StopsOf(variant, g, run, [i]) == [visit.stop]
    ensures visit == Advanced ==> |run'.trajectory[i]| == |run.trajectory[i]| + 1 && run'.delay == run.delay
    ensures visit == Advanced ==>
      && ClaimsOk(g, claims) && ClaimsCover(variant, g, run, [], NextNode(run, i), claims)
      && Marked(run.pairVisited, run'.pairVisited, claims) && run'.used == run.used + Flips(g, claims, i)
    ensures visit != Advanced ==> run'.pairVisited == run.pairVisited && run'.used == run.used
    ensures variant != BtpgRun ==> run'.pairVisited == run.pairVisited && run'.used == run.used
    ensures Remaining(g.nodes, run') + (if visit == Advanced then 1 else 0) == Remaining(g.nodes, run)
    ensures run'.delay >= run.delay
  {
    run', claims := run, [];
    if run.finished[i] {
      visit := Skipped;
    } else {
      NextUnvisited(g.nodes, g.pairs, run, i);
      var next := FirstUnvisited(run.visited[i]);
      var node := NodeOnPath(g, i, next);
      var clear, blocker, found := CheckIncoming(variant, g, run, node, []);
      claims := found;
      if !clear {
        visit := Blocked(Stop(node, blocker));
      } else if variant == NoDelayRun || i in movable {
        run' := EnterPassed(variant, g, run, i, node, found, now);
        visit := Advanced;
      } else {
        if variant == TpgRun {
          run' := run.(delay := run.delay + 1);
          CountersChanged(g.nodes, g.pairs, run, run');
          ClosedGrows(variant, g.nodes, g.edges, g.pairs, run, run');
        }
        visit := Held;
      }
    }
  }

  /** Every blocked robot waits at its next node and has not moved since it
      was checked. */
  predicate StopsAt(nodes: seq<seq<Node>>, run: Run, stops: seq<Stop>, blocked: seq<nat>)
    requires |run.trajectory| == |nodes|
  {
    && |stops| == |blocked| && Distinct(blocked)
    && forall m | 0 <= m < |blocked| ::
      blocked[m] < |nodes| && |run.trajectory[blocked[m]]| < |nodes[blocked[m]]| && stops[m].at == NextNode(run, blocked[m])
  }

  /** The stops a pass over `check` records when nobody moves in it: each
      unfinished robot whose next node is not open waits there for the
      source of the node's first unmet edge. */
  function StopsOf(variant: Variant, g: Graph, run: Run, check: seq<nat>): seq<Stop>
    requires ListsOk(g.nodes, g.edges) && |run.trajectory| == |run.finished| == |g.nodes|
    requires forall k | 0 <= k < |check| :: check[k] < |g.nodes|
  {
    if |check| == 0 then []
    else
      var i := check[|check| - 1];
      StopsOf(variant, g, run, check[..|check| - 1])
      + if !run.finished[i] && |run.trajectory[i]| < |g.nodes[i]| && !Open(variant, g, run, [], NextNode(run, i))
        then [Stop(NextNode(run, i), BlockerOf(variant, g, run, NextNode(run, i)))]
        else []
  }

  /** Some unfinished robot in `check` has every edge into its next node
      met. */
  predicate AnyReady(variant: Variant, g: Graph, run: Run, check: seq<nat>)
    requires ListsOk(g.nodes, g.edges) && |run.trajectory| == |run.finished| == |g.nodes|
    requires forall k | 0 <= k < |check| :: check[k] < |g.nodes|
  {
    && |check| > 0
    && var i := check[|check| - 1];
       AnyReady(variant, g, run, check[..|check| - 1]) || (!run.finished[i] && Ready(variant, g, run, i))
  }

  lemma {:induction false} AnyReadyExists(variant: Variant, g: Graph, run: Run, check: seq<nat>)
    requires ListsOk(g.nodes, g.edges) && |run.trajectory| == |run.finished| == |g.nodes|
    requires forall k | 0 <= k < |check| :: check[k] < |g.nodes|
    ensures AnyReady(variant, g, run, check) <==>
      exists k | 0 <= k < |check| :: !run.finished[check[k]] && Ready(variant, g, run, check[k])
  {
    if |check| > 0 {
      var front := check[..|check| - 1];
      AnyReadyExists(variant, g, run, front);
      if AnyReady(variant, g, run, front) {
        var k :| 0 <= k < |front| && !run.finished[front[k]] && Ready(variant, g, run, front[k]);
        assert check[k] == front[k];
      }
      if exists k | 0 <= k < |check| :: !run.finished[check[k]] && Ready(variant, g, run, check[k]) {
        var k :| 0 <= k < |check| && !run.finished[check[k]] && Ready(variant, g, run, check[k]);
        if k < |front| {
          assert check[k] == front[k];
        }
      }
    }
  }

  /** Nobody in `done` was ready exactly when the pass counted no ready
      robot, and then the stops are those of the unchanged run. */
  predicate NoneReady(variant: Variant, g: Graph, run: Run, done: seq<nat>, stops: seq<Stop>, ready: nat)
    requires ListsOk(g.nodes, g.edges) && RunOk(g.nodes, g.pairs, run)
    requires forall k | 0 <= k < |done| :: done[k] < |g.nodes|
  {
    && (ready == 0 <==> !AnyReady(variant, g, run, done))
    && (ready == 0 ==> stops == StopsOf(variant, g, run, done))
  }

  /** The pass so far: from `run` to `cur` the robots in `done` took their
      turns; `moved` of them entered a node, `ready` had every incoming edge
      passable, and the blocked ones were recorded with their stops. */
  predicate PassSoFar(variant: Variant, g: Graph, run: Run, now: int, done: seq<nat>,
                      cur: Run, stops: seq<Stop>, blocked: seq<nat>, moved: nat, ready: nat)
    requires RunOk(g.nodes, g.pairs, run) && RunOk(g.nodes, g.pairs, cur)
  {
    && Within(g.nodes, run, cur, now, done)
    && Remaining(g.nodes, cur) + moved == Remaining(g.nodes, run)
    && moved <= ready && (variant == NoDelayRun ==> moved == ready)
    && (ready == 0 ==> cur == run)
    && StopsAt(g.nodes, cur, stops, blocked)
    && (forall m | 0 <= m < |blocked| ::
          blocked[m] in done && |cur.trajectory[blocked[m]]| == |run.trajectory[blocked[m]]|)
    && (variant != BtpgRun ==> cur.pairVisited == run.pairVisited && cur.used == run.used)
    && (variant != TpgRun ==> cur.delay == run.delay) && cur.delay >= run.delay
  }

  /** The turn of robot i within a pass, with the pass's bookkeeping. */
  method PassTurn(variant: Variant, g: Graph, movable: seq<nat>, ghost run: Run, now: int, ghost done: seq<nat>, i: nat,
                  cur: Run, stops: seq<Stop>, blocked: seq<nat>, moved: nat, ready: nat)
      returns (cur': Run, stops': seq<Stop>, blocked': seq<nat>, moved': nat, ready': nat)
    requires PlanOk(variant, g) && RunOk(g.nodes, g.pairs, run)
    requires RunOk(g.nodes, g.pairs, cur) && Closed(variant, g.nodes, g.edges, cur)
    requires PassSoFar(variant, g, run, now, done, cur, stops, blocked, moved, ready)
    requires i < |g.nodes| && i !in done && forall k | 0 <= k < |done| :: done[k] < |g.nodes|
    requires NoneReady(variant, g, run, done, stops, ready)
    ensures RunOk(g.nodes, g.pairs, cur') && Closed(variant, g.nodes, g.edges, cur')
    ensures PassSoFar(variant, g, run, now, done + [i], cur', stops', blocked', moved', ready')
    ensures NoneReady(variant, g, run, done + [i], stops', ready')
  {
    var visit;
    ghost var claims;
    cur', visit, claims := VisitRobot(variant, g, movable, cur, i, now);
    StopsKept(g.nodes, cur, cur', stops, blocked, i);
    stops', blocked', moved', ready' := stops, blocked, moved, ready;
    match visit {
      case Blocked(stop) =>
        stops', blocked' := stops + [stop], blocked + [i];
        StopAdded(g.nodes, cur', stops, blocked, stop, i);
      case Advanced =>
        moved', ready' := moved + 1, ready + 1;
      case Held =>
        ready' := ready + 1;
      case Skipped =>
    }
    WithinTrans(g.nodes, run, cur, cur', now, done, i);
    NoneReadyNext(variant, g, run, cur, done, stops, ready, i, visit, stops', ready');
  }

  /** One more turn keeps `NoneReady`: while nobody was ready the turn saw
      the unchanged run, and a blocked robot added its stop. */
  lemma NoneReadyNext(variant: Variant, g: Graph, run: Run, cur: Run, done: seq<nat>, stops: seq<Stop>, ready: nat,
                      i: nat, visit: Visit, stops': seq<Stop>, ready': nat)
    requires ListsOk(g.nodes, g.edges) && RunOk(g.nodes, g.pairs, run) && RunOk(g.nodes, g.pairs, cur)
    requires i < |g.nodes| && forall k | 0 <= k < |done| :: done[k] < |g.nodes|
    requires NoneReady(variant, g, run, done, stops, ready) && (ready == 0 ==> cur == run)
    requires visit == Skipped <==> cur.finished[i]
    requires visit.Blocked? <==> !cur.finished[i] && !Ready(variant, g, cur, i)
    requires visit == Skipped ==> StopsOf(variant, g, cur, [i]) == []
    requires visit.Blocked? ==> StopsOf(variant, g, cur, [i]) == [visit.stop]
    requires ready' == ready + (if visit == Advanced || visit == Held then 1 else 0)
    requires stops' == stops + (if visit.Blocked? then [visit.stop] else [])
    ensures NoneReady(variant, g, run, done + [i], stops', ready')
  {
    var done' := done + [i];
    assert done'[..|done|] == done && done'[|done|] == i;
    assert StopsOf(variant, g, run, done') == StopsOf(variant, g, run, done) + StopsOf(variant, g, run, [i]);
  }

  /** One pass over the robots to check (src/Sim.cpp:468-525): each robot
      in turn is skipped, blocked (and recorded for the rotation search and
      the next pass), held, or moved. */
  method Pass(variant: Variant, g: Graph, movable: seq<nat>, run: Run, check: seq<nat>, now: int)
      returns (run': Run, stops: seq<Stop>, blocked: seq<nat>, moved: nat, ready: nat)
    requires PlanOk(variant, g) && RunOk(g.nodes, g.pairs, run) && Closed(variant, g.nodes, g.edges, run)
    requires Distinct(check) && forall k | 0 <= k < |check| :: check[k] < |g.nodes|
    ensures RunOk(g.nodes, g.pairs, run') && Closed(variant, g.nodes, g.edges, run')
    ensures PassSoFar(variant, g, run, now, check, run', stops, blocked, moved, ready)
    ensures NoneReady(variant, g, run, check, stops, ready)
  {
    run', stops, blocked, moved, ready := run, [], [], 0, 0;
    var k := 0;
    while k < |check|
      invariant 0 <= k <= |check|
      invariant RunOk(g.nodes, g.pairs, run') && Closed(variant, g.nodes, g.edges, run')
      invariant PassSoFar(variant, g, run, now, check[..k], run', stops, blocked, moved, ready)
      invariant NoneReady(variant, g, run, check[..k], stops, ready)
    {
      DistinctPrefix(check, k);
      run', stops, blocked, moved, ready := PassTurn(variant, g, movable, run, now, check[..k], check[k],
                                                     run', stops, blocked, moved, ready);
      assert check[..k + 1] == check[..k] + [check[k]];
      k := k + 1;
    }
    assert check[..k] == check;
  }

  /** Stops stay accurate while only other robots move. */
  lemma StopsKept(nodes: seq<seq<Node>>, a: Run, b: Run, stops: seq<Stop>, blocked: seq<nat>, i: nat)
    requires |a.trajectory| == |b.trajectory| == |nodes|
    requires StopsAt(nodes, a, stops, blocked) && i !in blocked
    requires forall r | 0 <= r < |nodes| && r != i :: b.trajectory[r] == a.trajectory[r]
    ensures StopsAt(nodes, b, stops, blocked)
  {
    forall m | 0 <= m < |blocked|
      ensures b.trajectory[blocked[m]] == a.trajectory[blocked[m]]
    {
      assert blocked[m] != i;
    }
  }

  lemma StopAdded(nodes: seq<seq<Node>>, run: Run, stops: seq<Stop>, blocked: seq<nat>, stop: Stop, i: nat)
    requires |run.trajectory| == |nodes| && StopsAt(nodes, run, stops, blocked) && i !in blocked
    requires i < |nodes| && |run.trajectory[i]| < |nodes[i]| && stop.at == NextNode(run, i)
    ensures StopsAt(nodes, run, stops + [stop], blocked + [i])
  {
  }

  /** The first stop from position q on whose robot waits to enter
      `target`, or |stops| when none does. */
  function StopFrom(stops: seq<Stop>, target: NodeRef, q: nat): (r: nat)
    ensures r <= |stops| && (r < |stops| ==> stops[r].at == target)
    ensures forall q' | q <= q' < r :: stops[q'].at != target
    decreases |stops| - q
  {
    if q >= |stops| then |stops|
    else if stops[q].at == target then q
    else StopFrom(stops, target, q + 1)
  }

  /** The chain search as a function: from the stop `cur`, whose node ends
      the chain `members`, follow its blocker to the stop waiting at it;
      the chain closes when that stop's node is the first member, and ends
      without a rotation when there is no such stop or the node is already
      a member. */
  function Chain(stops: seq<Stop>, members: seq<NodeRef>, cur: nat): (seq<NodeRef>, bool)
    requires cur < |stops| && |members| > 0
    decreases |stops| - |members|
  {
    var q := StopFrom(stops, stops[cur].blocker, 0);
    if q == |stops| then (members, false)
    else if stops[q].at == members[0] then (members, true)
    else if stops[q].at in members || |members| >= |stops| then (members, false)
    else Chain(stops, members + [stops[q].at], q)
  }

  /** The rotation the rotation step handles: the chain of the first stop
      whose chain closes, if any. */
  function FirstRotation(stops: seq<Stop>, p: nat): Option<seq<NodeRef>>
    decreases |stops| - p
  {
    if p >= |stops| then None
    else
      var chain := Chain(stops, [stops[p].at], p);
      if chain.1 then Some(chain.0) else FirstRotation(stops, p + 1)
  }

  /** The rotation step counts ready robots: there is a first rotation and
      every member's node is open once the members are exempt. */
  predicate RotationReady(variant: Variant, g: Graph, run: Run, stops: seq<Stop>)
    requires ListsOk(g.nodes, g.edges)
  {
    match FirstRotation(stops, 0)
    case None => false
    case Some(members) =>
      forall m | 0 <= m < |members| :: NodeExists(g.nodes, members[m]) && Open(variant, g, run, members, members[m])
  }

  /** No robot can move on the graph's account in this timestep: no
      unfinished robot has all its incoming edges met, and the first
      rotation among the waiting robots, if there is one, is not clear. */
  predicate Stuck(variant: Variant, g: Graph, run: Run)
    requires ListsOk(g.nodes, g.edges) && |run.trajectory| == |run.finished| == |g.nodes|
  {
    && (forall i | 0 <= i < |g.nodes| :: run.finished[i] || !Ready(variant, g, run, i))
    && !RotationReady(variant, g, run, StopsOf(variant, g, run, AllRobots(|g.nodes|)))
  }

  /** A timestep is stuck exactly when its first round, which checks every
      robot, counts no ready robot. */
  lemma StuckFirstRound(variant: Variant, g: Graph, run: Run)
    requires ListsOk(g.nodes, g.edges) && |run.trajectory| == |run.finished| == |g.nodes|
    ensures var check := AllRobots(|g.nodes|);
      Stuck(variant, g, run) <==>
      !AnyReady(variant, g, run, check) && !RotationReady(variant, g, run, StopsOf(variant, g, run, check))
  {
    var check := AllRobots(|g.nodes|);
    AnyReadyExists(variant, g, run, check);
    if exists i | 0 <= i < |g.nodes| :: !run.finished[i] && Ready(variant, g, run, i) {
      var i :| 0 <= i < |g.nodes| && !run.finished[i] && Ready(variant, g, run, i);
      assert check[i] == i;
    }
  }

  /** The inner search of src/Sim.cpp:713-741: the first stop whose robot
      waits to enter `target`, or |stops| when none does. */
  method FindStop(stops: seq<Stop>, target: NodeRef) returns (q: nat)
    ensures q <= |stops| && (q < |stops| ==> stops[q].at == target)
    ensures forall q' | 0 <= q' < q :: stops[q'].at != target
    ensures q == StopFrom(stops, target, 0)
  {
    q := 0;
    var found := false;
    while q < |stops| && !found
      invariant 0 <= q <= |stops|
      invariant found ==> q < |stops| && stops[q].at == target
      invariant forall q' | 0 <= q' < q :: stops[q'].at != target
      decreases |stops| - q + (if found then 0 else 1)
    {
      if stops[q].at == target {
        found := true;
      } else {
        q := q + 1;
      }
    }
  }

  /** The chain search of src/Sim.cpp:697-744 from stop p: follow from each
      waiting robot to the stop of the robot it waits for, until the chain
      returns to its start (a rotation), reaches a robot already in it, or
      reaches a robot that is not waiting. `path` lists the stops visited. */
  method FindRotation(stops: seq<Stop>, p: nat) returns (members: seq<NodeRef>, cycle: bool, ghost path: seq<nat>)
    requires p < |stops|
    ensures |members| == |path| >= 1 && path[0] == p && Distinct(members)
    ensures forall m | 0 <= m < |path| :: path[m] < |stops| && members[m] == stops[path[m]].at
    ensures forall m | 0 <= m < |path| - 1 :: stops[path[m]].blocker == members[m + 1]
    ensures cycle <==> stops[path[|path| - 1]].blocker == members[0]
    ensures (members, cycle) == Chain(stops, [stops[p].at], p)
  {
    members, path := [stops[p].at], [p];
    var cur := p;
    var find := true;
    cycle := false;
    while find
      invariant ChainSoFar(stops, p, members, path, cur)
      invariant find ==> !cycle
      invariant !find ==> (cycle <==> stops[cur].blocker == members[0])
      invariant Chain(stops, [stops[p].at], p) == if find then Chain(stops, members, cur) else (members, cycle)
      decreases |stops| - |path| + (if find then 1 else 0)
    {
      find := false;
      var q := FindStop(stops, stops[cur].blocker);
      ghost var next := Chain(stops, members, cur);
      if q < |stops| {
        if stops[q].at == members[0] {
          cycle := true;
        } else if stops[q].at !in members {
          ChainGrows(stops, p, members, path, cur, q);
          members, path := members + [stops[q].at], path + [q];
          cur := q;
          find := true;
        }
      } else {
        assert stops[p].at != stops[cur].blocker;
      }
    }
  }

  /** The chain built so far from stop p: `path` lists the stops taken,
      without repeats, `members` their nodes, and each stop's blocker is
      the next member. */
  predicate ChainSoFar(stops: seq<Stop>, p: nat, members: seq<NodeRef>, path: seq<nat>, cur: nat)
  {
    && |members| == |path| >= 1 && path[0] == p && cur == path[|path| - 1]
    && (forall m | 0 <= m < |path| :: path[m] < |stops| && members[m] == stops[path[m]].at)
    && (forall m | 0 <= m < |path| - 1 :: stops[path[m]].blocker == members[m + 1])
    && Distinct(members) && Distinct(path) && |path| <= |stops|
  }

  /** Taking the stop q that the current blocker waits at, when its node is
      new to the chain, extends the chain and follows `Chain` one step. */
  lemma ChainGrows(stops: seq<Stop>, p: nat, members: seq<NodeRef>, path: seq<nat>, cur: nat, q: nat)
    requires ChainSoFar(stops, p, members, path, cur)
    requires q == StopFrom(stops, stops[cur].blocker, 0) && q < |stops| && stops[q].at !in members
    ensures ChainSoFar(stops, p, members + [stops[q].at], path + [q], q)
    ensures stops[q].at != members[0]
    ensures Chain(stops, members, cur) == Chain(stops, members + [stops[q].at], q)
  {
    assert q !in path;
    DistinctBound(path + [q], |stops|);
  }

  /** The check of a rotation's outside constraints (src/Sim.cpp:746-792):
      every edge into a member's node must come from another member, be
      claimable, or come from a visited node; the claims of all members are
      collected. */
  method CycleClear(variant: Variant, g: Graph, run: Run, members: seq<NodeRef>) returns (clear: bool, claims: seq<nat>)
    requires PlanOk(variant, g) && |run.pairVisited| == |g.pairs|
    requires forall m | 0 <= m < |members| :: NodeExists(g.nodes, members[m])
    ensures clear <==> forall m | 0 <= m < |members| :: Open(variant, g, run, members, members[m])
    ensures clear ==> forall m | 0 <= m < |members| :: ClaimsCover(variant, g, run, members, members[m], claims)
    ensures ClaimsOk(g, claims) && (variant != BtpgRun ==> claims == [])
  {
    clear, claims := true, [];
    var m := 0;
    while m < |members| && clear
      invariant 0 <= m <= |members|
      invariant clear ==> forall m' | 0 <= m' < m :: Open(variant, g, run, members, members[m'])
      invariant clear ==> forall m' | 0 <= m' < m :: ClaimsCover(variant, g, run, members, members[m'], claims)
      invariant !clear ==> 0 < m && !Open(variant, g, run, members, members[m - 1])
      invariant ClaimsOk(g, claims) && (variant != BtpgRun ==> claims == [])
    {
      var ok, found := MemberClear(variant, g, run, members, m);
      if ok {
        CoversGrow(variant, g, run, members, m, claims, found);
      }
      claims, clear := claims + found, ok;
      m := m + 1;
    }
  }

  /** The check of one rotation member's next node, with the other members
      exempt (src/Sim.cpp:750-790). */
  method MemberClear(variant: Variant, g: Graph, run: Run, members: seq<NodeRef>, m: nat) returns (clear: bool, claims: seq<nat>)
    requires PlanOk(variant, g) && |run.pairVisited| == |g.pairs|
    requires m < |members| && NodeExists(g.nodes, members[m])
    ensures clear <==> Open(variant, g, run, members, members[m])
    ensures clear ==> ClaimsCover(variant, g, run, members, members[m], claims)
    ensures ClaimsOk(g, claims) && (variant != BtpgRun ==> claims == [])
  {
    var node := NodeOnPath(g, members[m].robot, members[m].step);
    var blocker;
    clear, blocker, claims := CheckIncoming(variant, g, run, node, members);
  }

  /** Claims only accumulate, so the members already covered stay covered,
      and one more open, covered member extends the clear prefix. */
  lemma CoversGrow(variant: Variant, g: Graph, run: Run, members: seq<NodeRef>, m: nat, claims: seq<nat>, more: seq<nat>)
    requires ListsOk(g.nodes, g.edges) && m < |members|
    requires forall m' | 0 <= m' < |members| :: NodeExists(g.nodes, members[m'])
    requires forall m' | 0 <= m' < m :: Open(variant, g, run, members, members[m'])
    requires forall m' | 0 <= m' < m :: ClaimsCover(variant, g, run, members, members[m'], claims)
    requires Open(variant, g, run, members, members[m]) && ClaimsCover(variant, g, run, members, members[m], more)
    ensures forall m' | 0 <= m' < m + 1 :: Open(variant, g, run, members, members[m'])
    ensures forall m' | 0 <= m' < m + 1 :: ClaimsCover(variant, g, run, members, members[m'], claims + more)
  {
    forall m' | 0 <= m' < m + 1
      ensures ClaimsCover(variant, g, run, members, members[m'], claims + more)
    {
      if m' < m {
        assert ClaimsCover(variant, g, run, members, members[m'], claims);
      } else {
        assert ClaimsCover(variant, g, run, members, members[m'], more);
      }
    }
  }

  /** Which members may move (src/Sim.cpp:793-806): all of them must be
      movable. In the BTPG and TPG runs the members leave the re-check list
      and the TPG run counts a delay for each member that may not move; the
      no-delay run admits them all and keeps the list. */
  method Admit(variant: Variant, movable: seq<nat>, members: seq<NodeRef>, temp: seq<nat>, delay: nat)
      returns (canMove: bool, temp': seq<nat>, delay': nat)
    requires forall m | 0 <= m < |members| :: members[m].At?
    ensures canMove <==> variant == NoDelayRun || forall m | 0 <= m < |members| :: members[m].robot in movable
    ensures variant == NoDelayRun ==> temp' == temp
    ensures variant != NoDelayRun ==>
      forall x :: x in temp' <==> x in temp && forall m | 0 <= m < |members| :: members[m].robot != x
    ensures Distinct(temp) ==> Distinct(temp')
    ensures delay' == delay + (if variant == TpgRun then Unmovable(members, movable) else 0)
  {
    canMove, temp', delay' := true, temp, delay;
    if variant != NoDelayRun {
      var q := 0;
      while q < |members|
        invariant 0 <= q <= |members|
        invariant canMove <==> forall m | 0 <= m < q :: members[m].robot in movable
        invariant forall x :: x in temp' <==> x in temp && forall m | 0 <= m < q :: members[m].robot != x
        invariant Distinct(temp) ==> Distinct(temp')
        invariant delay' == delay + (if variant == TpgRun then Unmovable(members[..q], movable) else 0)
      {
        var id := members[q].robot;
        if id !in movable {
          if variant == TpgRun {
            delay' := delay' + 1;
          }
          canMove := false;
        }
        temp' := Without(temp', id);
        assert members[..q + 1][..q] == members[..q];
        q := q + 1;
      }
      assert members[..q] == members;
    }
  }

  /** One member of a cleared rotation enters its next node, found by
      walking to its first unvisited position, and the rotation's claims are
      recorded (src/Sim.cpp:811-830). */
  method EnterMember(g: Graph, run: Run, id: nat, timeStep: nat, claims: seq<nat>, now: int) returns (run': Run)
    requires AgentsOk(g.agents, g.nodes) && ChainsOk(g.nodes) && RunOk(g.nodes, g.pairs, run)
    requires id < |g.nodes| && timeStep == |run.trajectory[id]| < |g.nodes[id]|
    requires forall k | 0 <= k < |claims| :: claims[k] < |g.pairs|
    ensures RunOk(g.nodes, g.pairs, run') && Grown(g.nodes, run, run') && Timed(g.nodes, run, run', now)
    ensures |run'.trajectory[id]| == |run.trajectory[id]| + 1
    ensures forall r | 0 <= r < |g.nodes| && r != id :: run'.trajectory[r] == run.trajectory[r]
    ensures Marked(run.pairVisited, run'.pairVisited, claims)
    ensures run'.used == run.used && run'.delay == run.delay
    ensures Remaining(g.nodes, run') + 1 == Remaining(g.nodes, run)
  {
    assert RobotOk(g.nodes, run, id);
    NextUnvisited(g.nodes, g.pairs, run, id);
    var nextIdx := FirstUnvisited(run.visited[id]);
    var node := NodeOnPath(g, id, nextIdx);
    var entered := Enter(g, run, id, timeStep, node, now);
    var pairs := MarkPairs(entered.pairVisited, claims);
    run' := entered.(pairVisited := pairs);
    CountersChanged(g.nodes, g.pairs, entered, run');
  }

  /** Moves every member of a cleared rotation into its next node and
      records the rotation's claims (src/Sim.cpp:807-832). */
  method MoveMembers(g: Graph, run: Run, members: seq<NodeRef>, claims: seq<nat>, now: int)
      returns (run': Run, ghost robots: seq<nat>)
    requires AgentsOk(g.agents, g.nodes) && ChainsOk(g.nodes) && RunOk(g.nodes, g.pairs, run)
    requires Waiting(g.nodes, run, members) && Distinct(members) && |members| > 0
    requires forall k | 0 <= k < |claims| :: claims[k] < |g.pairs|
    ensures RunOk(g.nodes, g.pairs, run') && Grown(g.nodes, run, run') && Timed(g.nodes, run, run', now)
    ensures |robots| == |members| && forall m | 0 <= m < |members| :: robots[m] == members[m].robot
    ensures forall r | 0 <= r < |g.nodes| ::
      |run'.trajectory[r]| == |run.trajectory[r]| + (if r in robots then 1 else 0)
    ensures Marked(run.pairVisited, run'.pairVisited, claims)
    ensures run'.used == run.used && run'.delay == run.delay
    ensures Remaining(g.nodes, run') + |members| == Remaining(g.nodes, run)
  {
    WaitingRobots(g.nodes, run, members);
    run', robots := run, [];
    var q := 0;
    while q < |members|
      invariant 0 <= q <= |members| && |robots| == q
      invariant RunOk(g.nodes, g.pairs, run') && Grown(g.nodes, run, run') && Timed(g.nodes, run, run', now)
      invariant forall m | 0 <= m < q :: robots[m] == members[m].robot
      invariant forall r | 0 <= r < |g.nodes| ::
        |run'.trajectory[r]| == |run.trajectory[r]| + (if r in robots then 1 else 0)
      invariant q > 0 ==> Marked(run.pairVisited, run'.pairVisited, claims)
      invariant q == 0 ==> run'.pairVisited == run.pairVisited
      invariant run'.used == run.used && run'.delay == run.delay
      invariant Remaining(g.nodes, run') + q == Remaining(g.nodes, run)
    {
      var id := members[q].robot;
      assert id !in robots;
      ghost var before := run';
      run' := EnterMember(g, run', id, members[q].step, claims, now);
      GrownTrans(g.nodes, run, before, run');
      robots := robots + [id];
      q := q + 1;
    }
  }

  /** After the move every member's node is visited. */
  lemma MembersVisited(nodes: seq<seq<Node>>, pairs: seq<BiPair>, run: Run, run': Run, members: seq<NodeRef>, robots: seq<nat>)
    requires RunOk(nodes, pairs, run) && RunOk(nodes, pairs, run') && Waiting(nodes, run, members)
    requires |robots| == |members| && forall m | 0 <= m < |members| :: robots[m] == members[m].robot
    requires forall r | 0 <= r < |nodes| ::
      |run'.trajectory[r]| == |run.trajectory[r]| + (if r in robots then 1 else 0)
    ensures forall m | 0 <= m < |members| :: Visited(run', members[m])
  {
    forall m | 0 <= m < |members|
      ensures Visited(run', members[m])
    {
      var r := members[m].robot;
      assert robots[m] == r;
      assert RobotOk(nodes, run', r);
    }
  }

  /** The members of a cleared rotation move together (src/Sim.cpp:807-832);
      every edge into a member node is honoured afterwards, since its
      source is a member, a claimed pair or an already visited node. */
  method Advance(variant: Variant, g: Graph, run: Run, members: seq<NodeRef>, claims: seq<nat>, now: int)
      returns (run': Run)
    requires PlanOk(variant, g) && RunOk(g.nodes, g.pairs, run) && Closed(variant, g.nodes, g.edges, run)
    requires Waiting(g.nodes, run, members) && Distinct(members) && |members| > 0
    requires ClaimsOk(g, claims) && (variant != BtpgRun ==> claims == [])
    requires forall m | 0 <= m < |members| ::
      Open(variant, g, run, members, members[m]) && ClaimsCover(variant, g, run, members, members[m], claims)
    ensures RunOk(g.nodes, g.pairs, run') && Closed(variant, g.nodes, g.edges, run')
    ensures Within(g.nodes, run, run', now, RobotsOf(members))
    ensures forall m | 0 <= m < |members| ::
      |run'.trajectory[members[m].robot]| == |run.trajectory[members[m].robot]| + 1
    ensures variant != BtpgRun ==> run'.pairVisited == run.pairVisited
    ensures run'.used == run.used && run'.delay == run.delay
    ensures Remaining(g.nodes, run') + |members| == Remaining(g.nodes, run)
  {
    ghost var robots;
    run', robots := MoveMembers(g, run, members, claims, now);
    assert robots == RobotsOf(members);
    MembersVisited(g.nodes, g.pairs, run, run', members, robots);
    forall m | 0 <= m < |members|
      ensures NodeHonored(variant, g.nodes, g.edges, run', members[m].robot, members[m].step)
    {
      EnteredHonored(variant, g, run, run', members, members[m], claims);
    }
    MovedHonored(variant, g.nodes, g.edges, run, run', members, robots);
    ClosedGrows(variant, g.nodes, g.edges, g.pairs, run, run');
    if variant != BtpgRun {
      assert run'.pairVisited == run.pairVisited;
    }
  }

  /** The nodes a joint move entered are exactly the members' nodes, so
      when those are honoured every newly entered node is. */
  lemma MovedHonored(variant: Variant, nodes: seq<seq<Node>>, edges: seq<Type2Edge>, run: Run, run': Run,
                     members: seq<NodeRef>, robots: seq<nat>)
    requires |run.trajectory| == |run'.trajectory| == |nodes| && Waiting(nodes, run, members)
    requires |robots| == |members| && forall m | 0 <= m < |members| :: robots[m] == members[m].robot
    requires forall r | 0 <= r < |nodes| ::
      |run'.trajectory[r]| == |run.trajectory[r]| + (if r in robots then 1 else 0)
    requires forall m | 0 <= m < |members| ::
      NodeHonored(variant, nodes, edges, run', members[m].robot, members[m].step)
    ensures forall r, t | 0 <= r < |nodes| && |run.trajectory[r]| <= t < |run'.trajectory[r]| && t < |nodes[r]| ::
      NodeHonored(variant, nodes, edges, run', r, t)
  {
    forall r, t | 0 <= r < |nodes| && |run.trajectory[r]| <= t < |run'.trajectory[r]| && t < |nodes[r]|
      ensures NodeHonored(variant, nodes, edges, run', r, t)
    {
      var m :| 0 <= m < |robots| && robots[m] == r;
      assert members[m] == At(r, t);
    }
  }

  /** A cleared rotation (src/Sim.cpp:793-832): its members leave the
      re-check list in the BTPG and TPG runs, and move together when all of
      them may move. */
  method MoveCleared(variant: Variant, g: Graph, movable: seq<nat>, run: Run, members: seq<NodeRef>,
                     claims: seq<nat>, temp: seq<nat>, now: int)
      returns (run': Run, advanced: nat, temp': seq<nat>)
    requires PlanOk(variant, g) && RunOk(g.nodes, g.pairs, run) && Closed(variant, g.nodes, g.edges, run)
    requires Waiting(g.nodes, run, members) && Distinct(members) && |members| > 0
    requires ClaimsOk(g, claims) && (variant != BtpgRun ==> claims == [])
    requires forall m | 0 <= m < |members| ::
      Open(variant, g, run, members, members[m]) && ClaimsCover(variant, g, run, members, members[m], claims)
    ensures RunOk(g.nodes, g.pairs, run') && Closed(variant, g.nodes, g.edges, run')
    ensures Within(g.nodes, run, run', now, RobotsOf(members))
    ensures advanced == |members| <==>
      variant == NoDelayRun || forall m | 0 <= m < |members| :: members[m].robot in movable
    ensures advanced == 0 || advanced == |members|
    ensures advanced > 0 ==> forall m | 0 <= m < |members| ::
      |run'.trajectory[members[m].robot]| == |run.trajectory[members[m].robot]| + 1
    ensures variant != NoDelayRun ==> forall x :: x in temp' <==> x in temp && x !in RobotsOf(members)
    ensures variant == NoDelayRun ==> temp' == temp
    ensures Distinct(temp) ==> Distinct(temp')
    ensures variant != BtpgRun ==> run'.pairVisited == run.pairVisited
    ensures run'.used == run.used
    ensures run'.delay == run.delay + (if variant == TpgRun then Unmovable(members, movable) else 0)
    ensures Remaining(g.nodes, run') + advanced == Remaining(g.nodes, run)
  {
    var canMove, delay;
    canMove, temp', delay := Admit(variant, movable, members, temp, run.delay);
    forall x
      ensures (forall m | 0 <= m < |members| :: members[m].robot != x) <==> x !in RobotsOf(members)
    {
      var rs := RobotsOf(members);
      if x in rs {
        var m :| 0 <= m < |rs| && rs[m] == x;
      }
    }
    advanced := 0;
    run' := run;
    if canMove {
      run' := Advance(variant, g, run, members, claims, now);
      advanced := |members|;
    }
    DelayChanged(variant, g.nodes, g.edges, g.pairs, run', run'.delay + delay - run.delay);
    run' := run'.(delay := run'.delay + delay - run.delay);
  }

  /** A rotation found among the stops (src/Sim.cpp:744-832): if every
      member's node is open once the members themselves are exempt, the
      members count as ready, leave the re-check list (BTPG and TPG runs),
      and move together when all of them may move. */
  method Rotate(variant: Variant, g: Graph, movable: seq<nat>, run: Run, members: seq<NodeRef>, temp: seq<nat>, now: int)
      returns (run': Run, advanced: nat, ready: nat, temp': seq<nat>)
    requires PlanOk(variant, g) && RunOk(g.nodes, g.pairs, run) && Closed(variant, g.nodes, g.edges, run)
    requires Waiting(g.nodes, run, members) && Distinct(members) && |members| > 0
    ensures RunOk(g.nodes, g.pairs, run') && Closed(variant, g.nodes, g.edges, run')
    ensures Within(g.nodes, run, run', now, RobotsOf(members))
    ensures ready == |members| <==> forall m | 0 <= m < |members| :: Open(variant, g, run, members, members[m])
    ensures ready == 0 || ready == |members|
    ensures ready == 0 ==> run' == run && temp' == temp
    ensures advanced == |members| <==>
      ready > 0 && (variant == NoDelayRun || forall m | 0 <= m < |members| :: members[m].robot in movable)
    ensures advanced == 0 || advanced == |members|
    ensures advanced > 0 ==> forall m | 0 <= m < |members| ::
      |run'.trajectory[members[m].robot]| == |run.trajectory[members[m].robot]| + 1
    ensures ready > 0 && variant != NoDelayRun ==>
      forall x :: x in temp' <==> x in temp && x !in RobotsOf(members)
    ensures variant == NoDelayRun ==> temp' == temp
    ensures Distinct(temp) ==> Distinct(temp')
    ensures variant != BtpgRun ==> run'.pairVisited == run.pairVisited
    ensures run'.used == run.used
    ensures run'.delay == run.delay + (if variant == TpgRun && ready > 0 then Unmovable(members, movable) else 0)
    ensures Remaining(g.nodes, run') + advanced == Remaining(g.nodes, run)
  {
    var clear, claims := CycleClear(variant, g, run, members);
    run', advanced, ready, temp' := run, 0, 0, temp;
    if clear {
      ready := |members|;
      run', advanced, temp' := MoveCleared(variant, g, movable, run, members, claims, temp, now);
    }
  }

  /** The search of src/Sim.cpp:693-744: a chain search from each stop in
      turn, until one closes into a rotation. */
  method SearchRotations(stops: seq<Stop>) returns (members: seq<NodeRef>, cycle: bool, ghost path: seq<nat>)
    ensures cycle ==> |members| == |path| >= 1 && Distinct(members)
    ensures cycle ==> forall m | 0 <= m < |path| :: path[m] < |stops| && members[m] == stops[path[m]].at
    ensures FirstRotation(stops, 0) == if cycle then Some(members) else None
  {
    var p := 0;
    cycle, members, path := false, [], [];
    while p < |stops| && !cycle
      invariant p <= |stops|
      invariant cycle ==> |members| == |path| >= 1 && Distinct(members)
      invariant cycle ==> forall m | 0 <= m < |path| :: path[m] < |stops| && members[m] == stops[path[m]].at
      invariant FirstRotation(stops, 0) == if cycle then Some(members) else FirstRotation(stops, p)
      decreases |stops| - p, !cycle
    {
      members, cycle, path := FindRotation(stops, p);
      if !cycle {
        p := p + 1;
      }
    }
  }

  /** The members of a rotation found among the stops wait at their next
      nodes, and their robots are blocked ones. */
  lemma RotationWaits(nodes: seq<seq<Node>>, run: Run, stops: seq<Stop>, blocked: seq<nat>, members: seq<NodeRef>, path: seq<nat>)
    requires |run.trajectory| == |nodes| && StopsAt(nodes, run, stops, blocked) && |members| == |path|
    requires forall m | 0 <= m < |path| :: path[m] < |stops| && members[m] == stops[path[m]].at
    ensures Waiting(nodes, run, members)
    ensures forall r | r in RobotsOf(members) :: r in blocked
  {
    forall m | 0 <= m < |members|
      ensures members[m] == NextNode(run, blocked[path[m]]) && blocked[path[m]] < |nodes|
      ensures |run.trajectory[blocked[path[m]]]| < |nodes[blocked[path[m]]]|
    {
    }
    forall r | r in RobotsOf(members)
      ensures r in blocked
    {
      var m :| 0 <= m < |members| && RobotsOf(members)[m] == r;
      assert r == blocked[path[m]];
    }
  }

  /** The rotation step of a timestep (src/Sim.cpp:693-837): the stops are
      searched in order for a rotation; the first one found is handled and
      the search ends there. The robots blocked in the pass form the
      re-check list it starts from. */
  method MoveRotation(variant: Variant, g: Graph, movable: seq<nat>, run: Run, stops: seq<Stop>, blocked: seq<nat>, now: int)
      returns (run': Run, advanced: nat, ready: nat, temp': seq<nat>, ghost rotation: seq<NodeRef>)
    requires PlanOk(variant, g) && RunOk(g.nodes, g.pairs, run) && Closed(variant, g.nodes, g.edges, run)
    requires StopsAt(g.nodes, run, stops, blocked)
    ensures RunOk(g.nodes, g.pairs, run') && Closed(variant, g.nodes, g.edges, run')
    ensures Within(g.nodes, run, run', now, blocked)
    ensures advanced <= ready && (variant == NoDelayRun ==> advanced == ready)
    ensures ready == 0 ==> run' == run && temp' == blocked
    ensures FirstRotation(stops, 0).Some? ==> FirstRotation(stops, 0) == Some(rotation)
    ensures FirstRotation(stops, 0).Some? ==> forall m | 0 <= m < |rotation| :: NodeExists(g.nodes, rotation[m])
    ensures ready > 0 <==>
      FirstRotation(stops, 0).Some? && forall m | 0 <= m < |rotation| :: Open(variant, g, run, rotation, rotation[m])
    ensures variant == NoDelayRun ==> temp' == blocked
    ensures variant != NoDelayRun ==> forall k | 0 <= k < |temp'| :: temp'[k] in blocked
    ensures variant != NoDelayRun ==> forall k | 0 <= k < |temp'| ::
      |run'.trajectory[temp'[k]]| == |run.trajectory[temp'[k]]|
    ensures Distinct(temp')
    ensures variant != BtpgRun ==> run'.pairVisited == run.pairVisited
    ensures run'.used == run.used && (variant != TpgRun ==> run'.delay == run.delay) && run'.delay >= run.delay
    ensures Remaining(g.nodes, run') + advanced == Remaining(g.nodes, run)
  {
    run', advanced, ready, temp' := run, 0, 0, blocked;
    var members, cycle, path := SearchRotations(stops);
    rotation := members;
    if cycle {
      RotationWaits(g.nodes, run, stops, blocked, members, path);
      run', advanced, ready, temp' := Rotate(variant, g, movable, run, members, blocked, now);
      WithinWider(g.nodes, run, run', now, RobotsOf(members), blocked);
    }
  }

  /** One round of the `while (newVisit != 0)` loop (src/Sim.cpp:466-531): a
      pass over the robots to check, then the rotation step; the robots
      left blocked are the ones the next round checks. */
  method Round(variant: Variant, g: Graph, movable: seq<nat>, run: Run, check: seq<nat>, now: int)
      returns (run': Run, newVisit: nat, ready: nat, check': seq<nat>)
    requires PlanOk(variant, g) && RunOk(g.nodes, g.pairs, run) && Closed(variant, g.nodes, g.edges, run)
    requires Distinct(check) && forall k | 0 <= k < |check| :: check[k] < |g.nodes|
    ensures RunOk(g.nodes, g.pairs, run') && Closed(variant, g.nodes, g.edges, run')
    ensures Within(g.nodes, run, run', now, check)
    ensures Remaining(g.nodes, run') + newVisit == Remaining(g.nodes, run)
    ensures newVisit <= ready && (variant == NoDelayRun ==> newVisit == ready)
    ensures ready == 0 ==> run' == run
    ensures ready == 0 <==>
      !AnyReady(variant, g, run, check) && !RotationReady(variant, g, run, StopsOf(variant, g, run, check))
    ensures Distinct(check') && forall k | 0 <= k < |check'| :: check'[k] < |g.nodes|
    ensures variant != NoDelayRun ==> forall k | 0 <= k < |check'| ::
      check'[k] in check && |run'.trajectory[check'[k]]| == |run.trajectory[check'[k]]|
    ensures variant != BtpgRun ==> run'.pairVisited == run.pairVisited && run'.used == run.used
    ensures (variant != TpgRun ==> run'.delay == run.delay) && run'.delay >= run.delay
  {
    var cur, stops, blocked, moved, r1 := Pass(variant, g, movable, run, check, now);
    var advanced, r2;
    ghost var rotation;
    run', advanced, r2, check', rotation := MoveRotation(variant, g, movable, cur, stops, blocked, now);
    newVisit, ready := moved + advanced, r1 + r2;
  }

  /** `Simulate*TimeStep` (src/Sim.cpp:451-538 and its TPG and no-delay
      twins): rounds repeat until one moves no robot. `deadlock` reports
      that no robot was ready in any round, where the original stops the
      program. In the BTPG and TPG runs a robot enters at most one node per
      timestep; in the no-delay run a timestep that is not a deadlock
      always makes progress. */
  method TimeStep(variant: Variant, g: Graph, movable: seq<nat>, run: Run, now: int) returns (run': Run, deadlock: bool)
    requires PlanOk(variant, g) && RunOk(g.nodes, g.pairs, run) && Closed(variant, g.nodes, g.edges, run)
    ensures RunOk(g.nodes, g.pairs, run') && Closed(variant, g.nodes, g.edges, run')
    ensures Grown(g.nodes, run, run') && Timed(g.nodes, run, run', now)
    ensures deadlock <==> Stuck(variant, g, run)
    ensures deadlock ==> run' == run
    ensures variant != NoDelayRun ==> AtMostOne(g.nodes, run, run')
    ensures variant == NoDelayRun && !deadlock ==> Remaining(g.nodes, run') < Remaining(g.nodes, run)
    ensures variant != BtpgRun ==> run'.pairVisited == run.pairVisited && run'.used == run.used
    ensures (variant != TpgRun ==> run'.delay == run.delay) && run'.delay >= run.delay
  {
    var check: seq<nat> := AllRobots(|g.nodes|);
    run' := run;
    var ready, newVisit := 0, 1;
    ghost var first := true;
    while newVisit != 0
      invariant first ==> ready == 0 && newVisit == 1 && check == AllRobots(|g.nodes|) && run' == run
      invariant !first ==> (ready == 0 <==> Stuck(variant, g, run))
      invariant !first && newVisit != 0 ==> ready > 0
      invariant RunOk(g.nodes, g.pairs, run') && Closed(variant, g.nodes, g.edges, run')
      invariant Grown(g.nodes, run, run') && Timed(g.nodes, run, run', now)
      invariant Distinct(check) && forall k | 0 <= k < |check| :: check[k] < |g.nodes|
      invariant ready == 0 ==> run' == run
      invariant variant != NoDelayRun ==> AtMostOne(g.nodes, run, run')
      invariant variant != NoDelayRun ==> forall k | 0 <= k < |check| ::
        |run'.trajectory[check[k]]| == |run.trajectory[check[k]]|
      invariant variant == NoDelayRun ==> Remaining(g.nodes, run') + ready == Remaining(g.nodes, run)
      invariant variant != BtpgRun ==> run'.pairVisited == run.pairVisited && run'.used == run.used
      invariant (variant != TpgRun ==> run'.delay == run.delay) && run'.delay >= run.delay
      decreases Remaining(g.nodes, run') + (if newVisit != 0 then 1 else 0)
    {
      ghost var before := run';
      var r;
      run', newVisit, r, check := Round(variant, g, movable, run', check, now);
      ready := ready + r;
      GrownTrans(g.nodes, run, before, run');
      if first {
        StuckFirstRound(variant, g, run);
      }
      first := false;
    }
    deadlock := ready == 0;
  }
}
