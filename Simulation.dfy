/** The simulator (src/Sim.cpp): delayed robots, the per-timestep choice of
    which robots may move, the run of a whole simulation, and the `Sim`
    object that keeps the generated paths and counters. The C library's
    `rand()` after `srand(seed)` is the function `rands`: `rands(k)` is the
    k-th number drawn after seeding. */
module Simulation {
  import opened Util
  import opened Tpg
  import opened BtpgSpec
  import opened Btpg
  import opened SimState
  import opened SimStep
  import opened Validity

  /** `RAND_MAX` of the GNU C library. */
  const RandMax: nat := 2147483647

  /** Pause, in timesteps, of a delayed robot whose draw fails. */
  const StopLength: nat := 5

  /** `(double)rand() / RAND_MAX > 0.3`, in exact arithmetic. */
  predicate Proceeds(draw: nat)
  {
    10 * draw > 3 * RandMax
  }

  /** The stop counter of a delayed robot after one timestep with the given
      draw: a running pause counts down; otherwise a failed draw starts a
      new pause. */
  function NextStops(c: nat, draw: nat): (c': nat)
    ensures c != 0 ==> c' == c - 1
    ensures c == 0 ==> (c' == 0 <==> Proceeds(draw)) && c' <= StopLength
  {
    if c != 0 then c - 1 else if Proceeds(draw) then 0 else StopLength
  }

  /** A delayed robot may move when it is not paused and its draw succeeds. */
  predicate Released(c: nat, draw: nat)
  {
    c == 0 && Proceeds(draw)
  }

  /** The counter after a run of timesteps with the given draws. */
  function After(c: nat, draws: seq<nat>): nat
    decreases |draws|
  {
    if |draws| == 0 then c else After(NextStops(c, draws[0]), draws[1..])
  }

  /** A pause of c timesteps holds the robot whatever it draws, and counts
      down by one each timestep. */
  lemma {:induction false} Paused(c: nat, draws: seq<nat>)
    requires |draws| <= c
    ensures After(c, draws) == c - |draws|
    ensures forall k | 0 <= k < |draws| :: !Released(After(c, draws[..k]), draws[k])
    decreases |draws|
  {
    if |draws| > 0 {
      Paused(c - 1, draws[1..]);
      forall k | 1 <= k < |draws|
        ensures After(c, draws[..k]) == After(c - 1, draws[1..][..k - 1])
      {
        assert draws[..k][1..] == draws[1..][..k - 1];
      }
      forall k | 0 <= k < |draws|
        ensures !Released(After(c, draws[..k]), draws[k])
      {
        if k > 0 {
          assert draws[k] == draws[1..][k - 1];
        }
      }
    }
  }

  /** A delayed robot whose draw fails sits out the next five timesteps,
      whatever it draws then, and draws again on the sixth
      (src/Sim.cpp:1109-1124). */
  lemma SitsOutFive(draw: nat, draws: seq<nat>)
    requires !Proceeds(draw) && |draws| == StopLength
    ensures !Released(0, draw) && NextStops(0, draw) == StopLength
    ensures forall k | 0 <= k < |draws| :: !Released(After(StopLength, draws[..k]), draws[k])
    ensures After(StopLength, draws) == 0
  {
    Paused(StopLength, draws);
  }

  /** How many robots below n are delayed: each of them draws a number. */
  function DelayedBelow(delayed: seq<nat>, n: nat): nat
  {
    if n == 0 then 0 else DelayedBelow(delayed, n - 1) + (if n - 1 in delayed then 1 else 0)
  }

  /** `robotStopNumbers[i]`: a robot without an entry reads as 0. */
  function Get(stops: map<nat, nat>, i: nat): nat
  {
    if i in stops then stops[i] else 0
  }

  /** Robot j may move at a timestep whose draws start at `cursor`. */
  predicate MayMove(delayed: seq<nat>, stops: map<nat, nat>, rands: nat -> nat, cursor: nat, j: nat)
  {
    j !in delayed || Released(Get(stops, j), rands(cursor + DelayedBelow(delayed, j)))
  }

  /** The choice for robot i within `Decide*MovableAgents`. */
  method DecideRobot(i: nat, delayed: seq<nat>, stops: map<nat, nat>, rands: nat -> nat, cursor: nat)
      returns (moves: bool, stops': map<nat, nat>, cursor': nat)
    ensures cursor' == cursor + (if i in delayed then 1 else 0)
    ensures moves <==> i !in delayed || Released(Get(stops, i), rands(cursor))
    ensures i in delayed ==> Get(stops', i) == NextStops(Get(stops, i), rands(cursor))
    ensures forall j: nat | j != i || j !in delayed :: Get(stops', j) == Get(stops, j)
  {
    moves, stops', cursor' := true, stops, cursor;
    if i in delayed {
      var draw := rands(cursor);
      cursor' := cursor + 1;
      var c := Get(stops, i);
      if c != 0 {
        stops' := stops[i := c - 1];
        moves := false;
      } else if !Proceeds(draw) {
        stops' := stops[i := StopLength];
        moves := false;
      }
    }
  }

  /** The choices for the robots below i, with draws taken from `cursor`
      on: one draw per delayed robot has been used; `movable` lists, in
      increasing order, exactly the robots that may move; each delayed
      robot's pause counter went from `stops` to `NextStops` of it and its
      draw; every other counter is unchanged. */
  ghost predicate Decided(delayed: seq<nat>, stops: map<nat, nat>, rands: nat -> nat, cursor: nat, i: nat,
                          movable: seq<nat>, stops': map<nat, nat>, cursor': nat)
  {
    && cursor' == cursor + DelayedBelow(delayed, i)
    && (forall k | 0 <= k < |movable| :: movable[k] < i)
    && (forall a, b | 0 <= a < b < |movable| :: movable[a] < movable[b])
    && (forall j | 0 <= j < i :: j in movable <==> MayMove(delayed, stops, rands, cursor, j))
    && (forall j | 0 <= j < i && j in delayed ::
          Get(stops', j) == NextStops(Get(stops, j), rands(cursor + DelayedBelow(delayed, j))))
    && (forall j: nat | j >= i || j !in delayed :: Get(stops', j) == Get(stops, j))
  }

  /** One iteration of `Decide*MovableAgents`: robot i's choice. */
  method DecideNext(delayed: seq<nat>, stops: map<nat, nat>, rands: nat -> nat, cursor: nat, i: nat,
                    movable: seq<nat>, stops': map<nat, nat>, cursor': nat)
      returns (movable'': seq<nat>, stops'': map<nat, nat>, cursor'': nat)
    requires Decided(delayed, stops, rands, cursor, i, movable, stops', cursor')
    ensures Decided(delayed, stops, rands, cursor, i + 1, movable'', stops'', cursor'')
  {
    var moves;
    moves, stops'', cursor'' := DecideRobot(i, delayed, stops', rands, cursor');
    assert Get(stops', i) == Get(stops, i);
    movable'' := movable;
    if moves {
      movable'' := movable + [i];
    }
    forall j | 0 <= j <= i
      ensures j in movable'' <==> MayMove(delayed, stops, rands, cursor, j)
    {
      if j < i {
        assert j in movable'' <==> j in movable;
      }
    }
    forall j | 0 <= j <= i && j in delayed
      ensures Get(stops'', j) == NextStops(Get(stops, j), rands(cursor + DelayedBelow(delayed, j)))
    {
    }
  }

  /** `Decide*MovableAgents` (src/Sim.cpp:1104-1133 and 1135-1163): robots
      in order; a delayed robot draws a number every timestep, counts down
      a running pause, and otherwise moves on a good draw or starts a pause;
      every other robot may move. */
  method DecideMovable(n: nat, delayed: seq<nat>, stops: map<nat, nat>, rands: nat -> nat, cursor: nat)
      returns (movable: seq<nat>, stops': map<nat, nat>, cursor': nat)
    ensures Decided(delayed, stops, rands, cursor, n, movable, stops', cursor')
  {
    movable, stops', cursor' := [], stops, cursor;
    var i := 0;
    while i < n
      invariant i <= n && Decided(delayed, stops, rands, cursor, i, movable, stops', cursor')
    {
      movable, stops', cursor' := DecideNext(delayed, stops, rands, cursor, i, movable, stops', cursor');
      i := i + 1;
    }
  }

  /** How a simulation ends: every robot at its goal, no robot able to move
      (where the original stops the program), or the step budget spent. */
  datatype Outcome = Completed | Deadlocked | OutOfSteps

  /** The state before the first timestep (src/Sim.cpp:27-62): every robot
      has visited its first node and stands on its first cell, no pair is
      claimed, and the finish times and counters are the ones given. */
  function Start(g: Graph, finishTime: seq<int>, used: nat, delay: nat): (run: Run)
    requires AgentsOk(g.agents, g.nodes) && |finishTime| == |g.nodes|
    requires forall r | 0 <= r < |g.nodes| :: |g.nodes[r]| >= 2
    ensures RunOk(g.nodes, g.pairs, run)
    ensures forall r | 0 <= r < |g.nodes| :: |run.trajectory[r]| == 1 && !run.finished[r]
    ensures forall p | 0 <= p < |g.pairs| :: !run.pairVisited[p]
    ensures run.finishTime == finishTime && run.used == used && run.delay == delay
  {
    var n := |g.nodes|;
    Run(seq(n, r requires 0 <= r < n => seq(|g.nodes[r]|, j requires 0 <= j < |g.nodes[r]| => j == 0)),
        seq(n, r => false),
        seq(n, r requires 0 <= r < n => [g.nodes[r][0].coord]),
        finishTime,
        seq(|g.pairs|, p => false),
        used, delay)
  }

  /** After `steps` timesteps from `start`: the run is well formed and
      closed, every robot that finished did so at a timestep counted so
      far, in the BTPG and TPG runs no robot has entered more nodes than
      there were timesteps, and the counters a run does not touch are kept. */
  predicate Driven(variant: Variant, g: Graph, start: Run, run: Run, steps: nat)
    requires RunOk(g.nodes, g.pairs, start)
  {
    && RunOk(g.nodes, g.pairs, run) && Closed(variant, g.nodes, g.edges, run)
    && Grown(g.nodes, start, run)
    && (forall r | 0 <= r < |g.nodes| ::
          if run.finished[r] then 1 <= run.finishTime[r] <= steps else run.finishTime[r] == start.finishTime[r])
    && (variant != NoDelayRun ==> forall r | 0 <= r < |g.nodes| :: |run.trajectory[r]| <= steps + 1)
    && (variant != BtpgRun ==> run.pairVisited == start.pairVisited && run.used == start.used)
    && (variant != TpgRun ==> run.delay == start.delay) && run.delay >= start.delay
  }

  /** One more timestep keeps `Driven`. */
  lemma TickKept(variant: Variant, g: Graph, start: Run, before: Run, run: Run, steps: nat)
    requires RunOk(g.nodes, g.pairs, start) && Driven(variant, g, start, before, steps)
    requires RunOk(g.nodes, g.pairs, run) && Closed(variant, g.nodes, g.edges, run)
    requires Grown(g.nodes, before, run) && Timed(g.nodes, before, run, steps + 1)
    requires variant != NoDelayRun ==> AtMostOne(g.nodes, before, run)
    requires variant != BtpgRun ==> run.pairVisited == before.pairVisited && run.used == before.used
    requires (variant != TpgRun ==> run.delay == before.delay) && run.delay >= before.delay
    ensures Driven(variant, g, start, run, steps + 1)
  {
    GrownTrans(g.nodes, start, before, run);
  }

  /** Why the loop below stopped: every robot finished, no robot could
      move, or the budget was spent. */
  predicate Ended(variant: Variant, g: Graph, run: Run, outcome: Outcome, steps: nat, budget: nat)
    requires ListsOk(g.nodes, g.edges) && |run.trajectory| == |run.finished| == |g.nodes|
  {
    && (outcome == Completed <==> forall r | 0 <= r < |g.nodes| :: run.finished[r])
    && (outcome == Deadlocked ==> Stuck(variant, g, run))
    && (outcome == OutOfSteps ==> steps == budget)
  }

  /** One counted timestep of the loop below: the robots that may move are
      decided, then the timestep runs. */
  method Tick(variant: Variant, g: Graph, delayed: seq<nat>, rands: nat -> nat, ghost start: Run, run: Run, steps: nat,
              stops: map<nat, nat>, cursor: nat)
      returns (run': Run, deadlock: bool, stops': map<nat, nat>, cursor': nat)
    requires PlanOk(variant, g) && RunOk(g.nodes, g.pairs, start) && steps >= 1
    requires Driven(variant, g, start, run, steps - 1)
    ensures Driven(variant, g, start, run', steps)
    ensures deadlock <==> Stuck(variant, g, run)
    ensures deadlock ==> run' == run
    ensures variant == NoDelayRun && !deadlock ==> Remaining(g.nodes, run') < Remaining(g.nodes, run)
  {
    var movable;
    stops', cursor' := stops, cursor;
    if variant == NoDelayRun {
      movable := AllRobots(|g.nodes|);
    } else {
      movable, stops', cursor' := DecideMovable(|g.nodes|, delayed, stops, rands, cursor);
    }
    run', deadlock := TimeStep(variant, g, movable, run, steps);
    TickKept(variant, g, start, run, run', steps - 1);
  }

  /** The timestep loop of `Simulate` (src/Sim.cpp:64-75, 137-148 and
      204-216): while some robot is unfinished, count a timestep, decide
      who may move, and run the timestep. A budget bounds the number of
      timesteps; the no-delay run always finishes within the number of
      nodes left to visit. */
  method Drive(variant: Variant, g: Graph, delayed: seq<nat>, rands: nat -> nat, start: Run, budget: nat)
      returns (run: Run, outcome: Outcome, steps: nat)
    requires PlanOk(variant, g) && RunOk(g.nodes, g.pairs, start)
    requires forall r | 0 <= r < |g.nodes| :: |start.trajectory[r]| == 1
    ensures RunOk(g.nodes, g.pairs, run) && Closed(variant, g.nodes, g.edges, run)
    ensures Grown(g.nodes, start, run) && steps <= budget
    ensures outcome == Completed <==> forall r | 0 <= r < |g.nodes| :: run.finished[r]
    ensures outcome == Completed ==> run.trajectory == Plan(g.nodes)
    ensures outcome == Deadlocked ==> Stuck(variant, g, run)
    ensures outcome == OutOfSteps ==> steps == budget
    ensures forall r | 0 <= r < |g.nodes| ::
      if run.finished[r] then 1 <= run.finishTime[r] <= steps else run.finishTime[r] == start.finishTime[r]
    ensures variant != NoDelayRun ==> forall r | 0 <= r < |g.nodes| :: |run.trajectory[r]| <= steps + 1
    ensures variant == NoDelayRun && Remaining(g.nodes, start) <= budget ==> outcome != OutOfSteps
    ensures variant != BtpgRun ==> run.pairVisited == start.pairVisited && run.used == start.used
    ensures (variant != TpgRun ==> run.delay == start.delay) && run.delay >= start.delay
  {
    run, outcome, steps := start, OutOfSteps, 0;
    var stops: map<nat, nat> := map k | k in delayed :: 0;
    var cursor := 0;
    var going := true;
    forall r | 0 <= r < |g.nodes|
      ensures !start.finished[r]
    {
      assert RobotOk(g.nodes, start, r);
    }
    while going
      invariant Driven(variant, g, start, run, steps) && steps <= budget
      invariant going ==> outcome == OutOfSteps
      invariant !going ==> Ended(variant, g, run, outcome, steps, budget)
      invariant !going && variant == NoDelayRun && Remaining(g.nodes, start) <= budget ==> outcome != OutOfSteps
      invariant going && variant == NoDelayRun ==> Remaining(g.nodes, run) + steps <= Remaining(g.nodes, start)
      decreases budget - steps, going
    {
      if false !in run.finished {
        forall r | 0 <= r < |g.nodes|
          ensures run.finished[r]
        {
          assert run.finished[r] in run.finished;
        }
        outcome, going := Completed, false;
      } else if steps == budget {
        ghost var w :| 0 <= w < |run.finished| && !run.finished[w];
        if variant == NoDelayRun && Remaining(g.nodes, start) <= budget {
          NoneLeft(g.nodes, g.pairs, run, |g.nodes|);
        }
        going := false;
      } else {
        steps := steps + 1;
        ghost var before := run;
        var deadlock;
        run, deadlock, stops, cursor := Tick(variant, g, delayed, rands, start, run, steps, stops, cursor);
        if deadlock {
          ghost var w :| 0 <= w < |before.finished| && !before.finished[w];
          assert !run.finished[w];
          outcome, going := Deadlocked, false;
        }
      }
    }
    if outcome == Completed {
      CompleteIsPlan(g.nodes, g.pairs, run);
    }
  }

  /** Each generated path is a non-empty prefix of its robot's planned
      cells. */
  predicate Follows(nodes: seq<seq<Node>>, paths: seq<seq<Coord>>)
  {
    && |paths| == |nodes|
    && forall r | 0 <= r < |nodes| ::
      1 <= |paths[r]| <= |nodes[r]| && paths[r] == Plan(nodes)[r][..|paths[r]|]
  }

  /** A well-formed run's trajectories follow the plans; a robot has
      finished exactly when its trajectory is its whole plan. */
  lemma Traced(nodes: seq<seq<Node>>, pairs: seq<BiPair>, run: Run)
    requires RunOk(nodes, pairs, run)
    ensures Follows(nodes, run.trajectory)
    ensures forall r | 0 <= r < |nodes| :: run.finished[r] <==> |run.trajectory[r]| == |nodes[r]|
    ensures run.trajectory == Plan(nodes) <==> forall r | 0 <= r < |nodes| :: run.finished[r]
  {
    forall r | 0 <= r < |nodes|
      ensures 1 <= |run.trajectory[r]| <= |nodes[r]| && run.trajectory[r] == Plan(nodes)[r][..|run.trajectory[r]|]
      ensures run.finished[r] <==> |run.trajectory[r]| == |nodes[r]|
    {
      assert RobotOk(nodes, run, r);
    }
    if forall r | 0 <= r < |nodes| :: run.finished[r] {
      CompleteIsPlan(nodes, pairs, run);
    }
    if run.trajectory == Plan(nodes) {
      forall r | 0 <= r < |nodes|
        ensures run.finished[r]
      {
        assert |run.trajectory[r]| == |nodes[r]|;
      }
    }
  }

  /** No path holds more cells than the start and one per timestep. */
  predicate Paced(paths: seq<seq<Coord>>, steps: int)
  {
    forall r | 0 <= r < |paths| :: |paths[r]| <= steps + 1
  }

  /** The finish times written after a run: a robot whose path reached its
      goal finished at some timestep from 1 to `steps`; the others keep the
      time they had. */
  predicate Finished(nodes: seq<seq<Node>>, paths: seq<seq<Coord>>, before: seq<int>, after: seq<int>, steps: int)
    requires |paths| == |before| == |after| == |nodes|
  {
    forall r | 0 <= r < |nodes| ::
      if |paths[r]| == |nodes[r]| then 1 <= after[r] <= steps else after[r] == before[r]
  }

  /** Writing finish times keeps a BTPG (and its TPG part) well formed. */
  lemma StampOk(variant: Variant, agents: seq<Agent>, nodes: seq<seq<Node>>, edges: seq<Type2Edge>,
                groups: seq<Type2EdgeGroup>, pairs: seq<BiPair>, times: seq<int>)
    requires |times| == |agents|
    ensures GraphOk(agents, nodes, edges) ==> GraphOk(Stamp(variant, agents, times), nodes, edges)
    ensures BtpgOk(agents, nodes, edges, groups, pairs) ==> BtpgOk(Stamp(variant, agents, times), nodes, edges, groups, pairs)
  {
  }

  /** The moves of a plan: each robot's path length less its start. */
  function Moves(nodes: seq<seq<Node>>, n: nat): nat
    requires n <= |nodes|
  {
    if n == 0 then 0 else Moves(nodes, n - 1) + (if |nodes[n - 1]| > 0 then |nodes[n - 1]| - 1 else 0)
  }

  /** At the start every robot has all its moves left. */
  lemma {:induction false} StartLeft(nodes: seq<seq<Node>>, traj: seq<seq<Coord>>, n: nat)
    requires n <= |nodes| == |traj| && forall r | 0 <= r < |nodes| :: |traj[r]| == 1 && |nodes[r]| >= 1
    ensures Left(nodes, traj, n) == Moves(nodes, n)
  {
    if n > 0 {
      StartLeft(nodes, traj, n - 1);
    }
  }

  /** A whole run and its validation (src/Sim.cpp:22-88, 93-157 and
      162-225, on values): the generated paths follow the planned cells,
      robots that reached their goal get their finish times, a run
      completes exactly when the paths are the whole plans, and a completed
      run is judged by the validity checks. */
  method Perform(variant: Variant, g: Graph, delayed: seq<nat>, rands: nat -> nat,
                 times: seq<int>, used: nat, delay: nat, budget: nat)
      returns (paths: seq<seq<Coord>>, times': seq<int>, used': nat, delay': nat, pairs: seq<bool>,
               outcome: Outcome, steps: nat, verdict: Option<Verdict>)
    requires PlanOk(variant, g) && |times| == |g.nodes|
    ensures Follows(g.nodes, paths) && steps <= budget && |times'| == |g.nodes| && |pairs| == |g.pairs|
    ensures variant != NoDelayRun ==> Paced(paths, steps)
    ensures Finished(g.nodes, paths, times, times', steps)
    ensures outcome == Completed <==> paths == Plan(g.nodes)
    ensures outcome == Completed ==> verdict == Some(Check(Plan(g.nodes), Plan(g.nodes)))
    ensures outcome == Completed ==> forall r | 0 <= r < |g.nodes| :: 1 <= times'[r] <= steps
    ensures outcome != Completed ==> verdict == None
    ensures variant == NoDelayRun && Moves(g.nodes, |g.nodes|) <= budget ==> outcome != OutOfSteps
    ensures variant != BtpgRun ==> used' == used && forall p | 0 <= p < |pairs| :: !pairs[p]
    ensures (variant != TpgRun ==> delay' == delay) && delay' >= delay
  {
    var start := Start(g, times, used, delay);
    StartLeft(g.nodes, start.trajectory, |g.nodes|);
    var run;
    run, outcome, steps := Drive(variant, g, delayed, rands, start, budget);
    Traced(g.nodes, g.pairs, run);
    verdict := None;
    if outcome == Completed {
      verdict := Some(Check(Plan(g.nodes), run.trajectory));
    }
    paths, times', used', delay', pairs := run.trajectory, run.finishTime, run.used, run.delay, run.pairVisited;
  }

  /** A valid pair table links every bidirectional edge to a pair whose
      flipped edge exists. */
  lemma LinkedPairs(edges: seq<Type2Edge>, pairs: seq<BiPair>)
    requires PairsOk(edges, pairs)
    ensures PairsLinked(edges, pairs)
  {
    forall p | 0 <= p < |pairs|
      ensures 0 <= pairs[p].flippedId < |edges|
    {
      assert PairOk(edges, pairs[p], p);
    }
  }

  /** The finish times a run records: `BTPGFinishedTime`, `TPGFinishedTime`
      or `TPGFinishedTimeNoDelay` of each robot. */
  function FinishTimes(variant: Variant, agents: seq<Agent>): (times: seq<int>)
    ensures |times| == |agents|
    ensures forall r | 0 <= r < |agents| :: times[r] == match variant {
      case BtpgRun => agents[r].btpgFinishedTime
      case TpgRun => agents[r].tpgFinishedTime
      case NoDelayRun => agents[r].tpgFinishedTimeNoDelay }
  {
    seq(|agents|, r requires 0 <= r < |agents| => match variant {
      case BtpgRun => agents[r].btpgFinishedTime
      case TpgRun => agents[r].tpgFinishedTime
      case NoDelayRun => agents[r].tpgFinishedTimeNoDelay })
  }

  /** The robots with the run's finish times written in. */
  function Stamp(variant: Variant, agents: seq<Agent>, times: seq<int>): (res: seq<Agent>)
    requires |times| == |agents|
    ensures |res| == |agents| && FinishTimes(variant, res) == times
    ensures forall r | 0 <= r < |agents| ::
      && res[r].type1Next == agents[r].type1Next && res[r].pathLength == agents[r].pathLength
      && res[r].robotId == agents[r].robotId && res[r].finishedTime == agents[r].finishedTime
    ensures variant != BtpgRun ==> forall r | 0 <= r < |agents| :: res[r].btpgFinishedTime == agents[r].btpgFinishedTime
    ensures variant != TpgRun ==> forall r | 0 <= r < |agents| :: res[r].tpgFinishedTime == agents[r].tpgFinishedTime
    ensures variant != NoDelayRun ==> forall r | 0 <= r < |agents| ::
      res[r].tpgFinishedTimeNoDelay == agents[r].tpgFinishedTimeNoDelay
  {
    seq(|agents|, r requires 0 <= r < |agents| => match variant {
      case BtpgRun => agents[r].(btpgFinishedTime := times[r])
      case TpgRun => agents[r].(tpgFinishedTime := times[r])
      case NoDelayRun => agents[r].(tpgFinishedTimeNoDelay := times[r]) })
  }

  /** The sum of a list of times. */
  function Sum(times: seq<int>): int
  {
    if |times| == 0 then 0 else Sum(times[..|times| - 1]) + times[|times| - 1]
  }

  /** C++ integer division, which truncates toward zero. */
  function Quot(a: int, b: int): (q: int)
    requires b != 0
    ensures a >= 0 && b > 0 ==> q == a / b
  {
    if (a >= 0) == (b > 0) then Abs(a) / Abs(b) else -(Abs(a) / Abs(b))
  }

  /** `Get*Statistics` (src/Sim.cpp:237-283): the finish times added up,
      robot by robot, and divided by the number of robots. */
  method Average(times: seq<int>, extra: int) returns (total: int, avg: int)
    requires |times| > 0
    ensures total == Sum(times)
    ensures avg == Quot(total + extra, |times|)
    ensures extra == 0 && (forall r | 0 <= r < |times| :: 1 <= times[r]) ==> 1 <= avg
  {
    total := 0;
    var i := 0;
    while i < |times|
      invariant i <= |times| && total == Sum(times[..i])
      invariant (forall r | 0 <= r < |times| :: 1 <= times[r]) ==> total >= i
    {
      assert times[..i + 1][..i] == times[..i];
      total := total + times[i];
      i := i + 1;
    }
    assert times[..i] == times;
    avg := Quot(total + extra, |times|);
  }

  /** What a run leaves behind: the robots `after` are `before` with only
      this run's finish times rewritten; each generated path follows its
      plan and, in the BTPG and TPG runs, has at most one cell per
      timestep after its start; a robot whose path is complete finished at
      a counted timestep and every other keeps its old time; the run
      completed exactly when the paths are the whole plans, and only then
      is there a verdict: the validity checks' verdict on the plans. */
  predicate Reported(variant: Variant, nodes: seq<seq<Node>>, before: seq<Agent>, after: seq<Agent>,
                     paths: seq<seq<Coord>>, steps: int, outcome: Outcome, verdict: Option<Verdict>)
    requires forall r | 0 <= r < |nodes| :: |nodes[r]| > 0
  {
    && |before| == |after| == |nodes|
    && after == Stamp(variant, before, FinishTimes(variant, after))
    && Follows(nodes, paths)
    && (variant != NoDelayRun ==> Paced(paths, steps))
    && Finished(nodes, paths, FinishTimes(variant, before), FinishTimes(variant, after), steps)
    && (outcome == Completed <==> paths == Plan(nodes))
    && (outcome == Completed ==> verdict == Some(Check(Plan(nodes), Plan(nodes))))
    && (outcome != Completed ==> verdict == None)
  }

  /** What a `Simulate` call leaves behind, on values: the robots with the
      run's finish times written in, the generated paths, the timestep
      count, the outcome and verdict, the counters and the average finish
      time (plus `extra`, the TPG delays, in the no-delay run); a run that
      does not complete keeps the previous average. */
  method Report(variant: Variant, g: Graph, delayed: seq<nat>, rands: nat -> nat,
                used: nat, delay: nat, extra: int, avg: int, budget: nat)
      returns (agents: seq<Agent>, paths: seq<seq<Coord>>, steps: nat, outcome: Outcome, verdict: Option<Verdict>,
               used': nat, delay': nat, pairs: seq<bool>, avg': int)
    requires PlanOk(variant, g) && |g.nodes| > 0
    ensures Reported(variant, g.nodes, g.agents, agents, paths, steps, outcome, verdict)
    ensures steps <= budget && |pairs| == |g.pairs|
    ensures variant == NoDelayRun && Moves(g.nodes, |g.nodes|) <= budget ==> outcome != OutOfSteps
    ensures outcome == Completed ==> avg' == Quot(Sum(FinishTimes(variant, agents)) + extra, |g.nodes|)
    ensures outcome == Completed && extra == 0 ==> avg' >= 1
    ensures outcome != Completed ==> avg' == avg
    ensures variant != BtpgRun ==> used' == used && forall p | 0 <= p < |pairs| :: !pairs[p]
    ensures (variant != TpgRun ==> delay' == delay) && delay' >= delay
  {
    var times;
    paths, times, used', delay', pairs, outcome, steps, verdict :=
      Perform(variant, g, delayed, rands, FinishTimes(variant, g.agents), used, delay, budget);
    avg' := avg;
    if outcome == Completed {
      var _, a := Average(times, extra);
      avg' := a;
    }
    agents := Stamp(variant, g.agents, times);
    assert FinishTimes(variant, agents) == times;
  }

  /** The simulator object (`Sim`, inc/Sim.hpp): the delayed robots chosen at
      construction, the generated paths, timestep totals and counters of the
      three runs. */
  class Sim {
    /** `rand()` after `srand(seed)`: every run re-seeds, so every run
        draws from the start of this sequence. */
    const rands: nat -> nat
    var delayedRobots: seq<nat>
    var mode: int
    var numBidirectionalEdgesIsUsed: nat
    var totalDelay: nat
    var expectedDelay: int
    var btpgAverageTime: int
    var tpgAverageTime: int
    var btpgGeneratedPath: seq<seq<Coord>>
    var tpgGeneratedPath: seq<seq<Coord>>
    var tpgGeneratedPathNoDelay: seq<seq<Coord>>
    var btpgTotalTimeStep: int
    var tpgTotalTimeStep: int
    var tpgTotalTimeStepNoDelay: int

    /** `Sim(seed, numRobots)` (src/Sim.cpp:6-17): draws one robot id per
        delayed robot. `numDelayed` is the number of iterations of the
        original's floating-point loop `i < 0.1 * numRobots`. */
    constructor (rands: nat -> nat, numRobots: nat, numDelayed: nat)
      requires numDelayed == 0 || numRobots > 0
      ensures this.rands == rands
      ensures |delayedRobots| == numDelayed
      ensures forall k | 0 <= k < numDelayed :: delayedRobots[k] == rands(k) % numRobots
      ensures forall k | 0 <= k < numDelayed :: delayedRobots[k] < numRobots
      ensures mode == 0 && numBidirectionalEdgesIsUsed == 0 && totalDelay == 0
      ensures expectedDelay == 0 && btpgAverageTime == 0 && tpgAverageTime == 0
      ensures btpgGeneratedPath == [] && tpgGeneratedPath == [] && tpgGeneratedPathNoDelay == []
    {
      var chosen: seq<nat> := [];
      var i := 0;
      while i < numDelayed
        invariant i <= numDelayed && |chosen| == i
        invariant forall k | 0 <= k < i :: chosen[k] == rands(k) % numRobots
      {
        chosen := chosen + [rands(i) % numRobots];
        i := i + 1;
      }
      this.rands := rands;
      delayedRobots := chosen;
      mode := 0;
      numBidirectionalEdgesIsUsed := 0;
      totalDelay := 0;
      expectedDelay := 0;
      btpgAverageTime := 0;
      tpgAverageTime := 0;
      btpgGeneratedPath := [];
      tpgGeneratedPath := [];
      tpgGeneratedPathNoDelay := [];
      btpgTotalTimeStep := 0;
      tpgTotalTimeStep := 0;
      tpgTotalTimeStepNoDelay := 0;
    }

    /** `Simulate(BTPG*)` (src/Sim.cpp:22-88): runs the BTPG with delays,
        writes each robot's `BTPGFinishedTime`, and on completion checks
        the generated paths and takes the average finish time. The claimed
        pairs are returned rather than written into the BTPG. */
    method SimulateBtpg(b: BTPG, budget: nat) returns (outcome: Outcome, verdict: Option<Verdict>, pairVisited: seq<bool>)
      requires b.Valid() && |b.tpg.nodes| > 0 && forall r | 0 <= r < |b.tpg.nodes| :: |b.tpg.nodes[r]| >= 2
      requires btpgGeneratedPath == []
      modifies this`mode, this`btpgTotalTimeStep, this`btpgGeneratedPath, this`numBidirectionalEdgesIsUsed,
        this`btpgAverageTime, b.tpg`agents
      ensures b.Valid()
      ensures mode == 1 && 0 <= btpgTotalTimeStep <= budget && |pairVisited| == |b.biPairs|
      ensures Reported(BtpgRun, b.tpg.nodes, old(b.tpg.agents), b.tpg.agents, btpgGeneratedPath, btpgTotalTimeStep,
                       outcome, verdict)
      ensures outcome == Completed ==>
        btpgAverageTime == Quot(Sum(FinishTimes(BtpgRun, b.tpg.agents)), |b.tpg.nodes|) && btpgAverageTime >= 1
      ensures outcome != Completed ==> btpgAverageTime == old(btpgAverageTime)
    {
      var g := Graph(b.tpg.agents, b.tpg.nodes, b.tpg.type2Edges, b.biPairs);
      LinkedPairs(g.edges, g.pairs);
      var agents, paths, steps, used, delay, avg;
      agents, paths, steps, outcome, verdict, used, delay, pairVisited, avg :=
        Report(BtpgRun, g, delayedRobots, rands, numBidirectionalEdgesIsUsed, totalDelay, 0, btpgAverageTime, budget);
      assert outcome == Completed ==> avg == Quot(Sum(FinishTimes(BtpgRun, agents)), |g.nodes|) && avg >= 1;
      mode := 1;
      btpgTotalTimeStep := steps;
      btpgGeneratedPath := paths;
      numBidirectionalEdgesIsUsed := used;
      btpgAverageTime := avg;
      b.tpg.agents := agents;
      assert b.Valid() by {
        StampOk(BtpgRun, g.agents, g.nodes, g.edges, b.groups, g.pairs, FinishTimes(BtpgRun, agents));
      }
    }

    /** `Simulate(TPG*)` (src/Sim.cpp:93-157): runs the TPG with delays,
        writes each robot's `TPGFinishedTime`, counts the timesteps robots
        were held, and on completion checks the generated paths and takes
        the average finish time. */
    method SimulateTpg(t: TPG, budget: nat) returns (outcome: Outcome, verdict: Option<Verdict>)
      requires t.Valid() && |t.nodes| > 0 && forall r | 0 <= r < |t.nodes| :: |t.nodes[r]| >= 2
      requires tpgGeneratedPath == []
      modifies this`mode, this`tpgTotalTimeStep, this`tpgGeneratedPath, this`totalDelay, this`tpgAverageTime, t`agents
      ensures t.Valid()
      ensures mode == 0 && 0 <= tpgTotalTimeStep <= budget
      ensures Reported(TpgRun, t.nodes, old(t.agents), t.agents, tpgGeneratedPath, tpgTotalTimeStep, outcome, verdict)
      ensures outcome == Completed ==>
        tpgAverageTime == Quot(Sum(FinishTimes(TpgRun, t.agents)), |t.nodes|) && tpgAverageTime >= 1
      ensures outcome != Completed ==> tpgAverageTime == old(tpgAverageTime)
      ensures totalDelay >= old(totalDelay)
    {
      var g := Graph(t.agents, t.nodes, t.type2Edges, []);
      var agents, paths, steps, used, delay, pairs, avg;
      agents, paths, steps, outcome, verdict, used, delay, pairs, avg :=
        Report(TpgRun, g, delayedRobots, rands, numBidirectionalEdgesIsUsed, totalDelay, 0, tpgAverageTime, budget);
      assert outcome == Completed ==> avg == Quot(Sum(FinishTimes(TpgRun, agents)), |g.nodes|) && avg >= 1;
      assert Reported(TpgRun, t.nodes, old(t.agents), agents, paths, steps, outcome, verdict);
      mode := 0;
      tpgTotalTimeStep := steps;
      tpgGeneratedPath := paths;
      totalDelay := delay;
      tpgAverageTime := avg;
      t.agents := agents;
      assert t.Valid() by {
        StampOk(TpgRun, g.agents, g.nodes, g.edges, [], [], FinishTimes(TpgRun, agents));
      }
    }

    /** `SimulateNoDelay(TPG*)` (src/Sim.cpp:162-225): runs the TPG with
        every robot movable at every timestep, writes each robot's
        `TPGFinishedTimeNoDelay`, and on completion checks the generated
        paths and sets the expected delay: the finish times plus the
        delays counted by the TPG run, per robot. With a budget of at least
        the number of nodes left to visit it never runs out of steps. */
    method SimulateNoDelay(t: TPG, budget: nat) returns (outcome: Outcome, verdict: Option<Verdict>)
      requires t.Valid() && |t.nodes| > 0 && forall r | 0 <= r < |t.nodes| :: |t.nodes[r]| >= 2
      requires tpgGeneratedPathNoDelay == []
      modifies this`mode, this`tpgTotalTimeStepNoDelay, this`tpgGeneratedPathNoDelay, this`expectedDelay, t`agents
      ensures t.Valid()
      ensures mode == 0 && 0 <= tpgTotalTimeStepNoDelay <= budget
      ensures Reported(NoDelayRun, t.nodes, old(t.agents), t.agents, tpgGeneratedPathNoDelay, tpgTotalTimeStepNoDelay,
                       outcome, verdict)
      ensures Moves(t.nodes, |t.nodes|) <= budget ==> outcome != OutOfSteps
      ensures outcome == Completed ==>
        expectedDelay == Quot(Sum(FinishTimes(NoDelayRun, t.agents)) + totalDelay, |t.nodes|)
      ensures outcome != Completed ==> expectedDelay == old(expectedDelay)
    {
      var g := Graph(t.agents, t.nodes, t.type2Edges, []);
      var agents, paths, steps, used, delay, pairs, expected;
      agents, paths, steps, outcome, verdict, used, delay, pairs, expected :=
        Report(NoDelayRun, g, delayedRobots, rands, numBidirectionalEdgesIsUsed, totalDelay, totalDelay, expectedDelay, budget);
      mode := 0;
      tpgTotalTimeStepNoDelay := steps;
      tpgGeneratedPathNoDelay := paths;
      expectedDelay := expected;
      t.agents := agents;
      assert t.Valid() by {
        StampOk(NoDelayRun, g.agents, g.nodes, g.edges, [], [], FinishTimes(NoDelayRun, agents));
      }
    }

    /** `GetTPGAverageTime`. */
    function GetTpgAverageTime(): int
      reads this
    {
      tpgAverageTime
    }

    /** `GetBTPGAverageTime`. */
    function GetBtpgAverageTime(): int
      reads this
    {
      btpgAverageTime
    }

    /** `GetExpectedDelay`. */
    function GetExpectedDelay(): int
      reads this
    {
      expectedDelay
    }

    /** `GetNumBidirectionalEdgesIsUsed`. */
    function GetNumBidirectionalEdgesIsUsed(): int
      reads this
    {
      numBidirectionalEdgesIsUsed
    }
  }
}
