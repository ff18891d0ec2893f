/** The path-validity checks run after every simulation (src/Sim.cpp:285-450,
    three copies that differ only in which trajectories they read). The
    original walks the nested loops and exits the program on the first
    failure; here each check is a scan in the same order, proved equal to
    a plain statement of what it looks for. */
module Validity {
  import opened Util

  /** The outcome of a validation: the first of the three checks that fails. */
  datatype Verdict = Valid | WrongEnds | Collides | Jumps

  /** Trajectory i starts at the first and ends at the last cell of plan i. */
  predicate EndsMatch(plan: seq<seq<Coord>>, traj: seq<seq<Coord>>, i: nat)
    requires i < |traj| <= |plan| && |traj[i]| > 0 && |plan[i]| > 0
  {
    traj[i][0] == plan[i][0] && traj[i][|traj[i]| - 1] == plan[i][|plan[i]| - 1]
  }

  /** What the validator may assume: one non-empty trajectory per planned
      robot, and every planned path non-empty. */
  predicate Shaped(plan: seq<seq<Coord>>, traj: seq<seq<Coord>>)
  {
    && |traj| <= |plan|
    && (forall i | 0 <= i < |traj| :: |traj[i]| > 0)
    && (forall i | 0 <= i < |plan| :: |plan[i]| > 0)
  }

  /** The first check: every trajectory starts and ends where its plan does. */
  predicate AllEndsMatch(plan: seq<seq<Coord>>, traj: seq<seq<Coord>>)
    requires Shaped(plan, traj)
  {
    forall i | 0 <= i < |traj| :: EndsMatch(plan, traj, i)
  }

  /** Robots i < j occupy the same cell at trajectory index k. */
  predicate ClashAt(traj: seq<seq<Coord>>, i: nat, j: nat, k: nat)
  {
    i < j < |traj| && k < |traj[i]| && k < |traj[j]| && traj[i][k] == traj[j][k]
  }

  /** The second check looks for this: two robots share a cell at the same index. */
  ghost predicate SomeClash(traj: seq<seq<Coord>>)
  {
    exists i: nat, j: nat, k: nat :: ClashAt(traj, i, j, k)
  }

  /** Trajectory i moves more than one cell between entries j and j+1. */
  predicate JumpAt(traj: seq<seq<Coord>>, i: nat, j: nat)
  {
    i < |traj| && j + 1 < |traj[i]| && Manhattan(traj[i][j], traj[i][j + 1]) > 1
  }

  /** The third check looks for this: some consecutive entries are more than
      a unit step apart. */
  ghost predicate SomeJump(traj: seq<seq<Coord>>)
  {
    exists i: nat, j: nat :: JumpAt(traj, i, j)
  }

  /** The first loop of src/Sim.cpp:401-416, from robot i on. */
  function EndsFrom(plan: seq<seq<Coord>>, traj: seq<seq<Coord>>, i: nat): bool
    requires Shaped(plan, traj)
    decreases |traj| - i
  {
    if i >= |traj| then true
    else EndsMatch(plan, traj, i) && EndsFrom(plan, traj, i + 1)
  }

  /** The innermost loop of src/Sim.cpp:423-433: index k on, robots i and j. */
  function ClashFrom(traj: seq<seq<Coord>>, i: nat, j: nat, k: nat): bool
    requires i < j < |traj|
    decreases |traj[i]| - k
  {
    if k >= |traj[i]| then false
    else (k < |traj[j]| && traj[i][k] == traj[j][k]) || ClashFrom(traj, i, j, k + 1)
  }

  /** The middle loop of src/Sim.cpp:421-434: robot i against robots j and later. */
  function ClashWithLater(traj: seq<seq<Coord>>, i: nat, j: nat): bool
    requires i < |traj|
    decreases |traj| - j
  {
    if j >= |traj| then false
    else if j <= i then ClashWithLater(traj, i, i + 1)
    else ClashFrom(traj, i, j, 0) || ClashWithLater(traj, i, j + 1)
  }

  /** The outer loop of src/Sim.cpp:419-435, from robot i on. */
  function ClashFromRobot(traj: seq<seq<Coord>>, i: nat): bool
    decreases |traj| - i
  {
    if i >= |traj| then false
    else ClashWithLater(traj, i, i + 1) || ClashFromRobot(traj, i + 1)
  }

  /** The inner loop of src/Sim.cpp:440-447 for robot i, from entry j on. */
  function JumpFrom(traj: seq<seq<Coord>>, i: nat, j: nat): bool
    requires i < |traj|
    decreases |traj[i]| - j
  {
    if j + 1 >= |traj[i]| then false
    else Manhattan(traj[i][j], traj[i][j + 1]) > 1 || JumpFrom(traj, i, j + 1)
  }

  /** The outer loop of src/Sim.cpp:438-448, from robot i on. */
  function JumpFromRobot(traj: seq<seq<Coord>>, i: nat): bool
    decreases |traj| - i
  {
    if i >= |traj| then false
    else JumpFrom(traj, i, 0) || JumpFromRobot(traj, i + 1)
  }

  /** `Check*PathValidity`: the three checks in their order; the first that
      fails decides the verdict (where the original prints and exits). */
  function Check(plan: seq<seq<Coord>>, traj: seq<seq<Coord>>): (v: Verdict)
    requires Shaped(plan, traj)
  {
    if !EndsFrom(plan, traj, 0) then WrongEnds
    else if ClashFromRobot(traj, 0) then Collides
    else if JumpFromRobot(traj, 0) then Jumps
    else Valid
  }

  lemma {:induction false} EndsFromIff(plan: seq<seq<Coord>>, traj: seq<seq<Coord>>, i: nat)
    requires Shaped(plan, traj)
    ensures EndsFrom(plan, traj, i) <==> forall i' | i <= i' < |traj| :: EndsMatch(plan, traj, i')
    decreases |traj| - i
  {
    if i < |traj| {
      EndsFromIff(plan, traj, i + 1);
    }
  }

  lemma {:induction false} ClashFromIff(traj: seq<seq<Coord>>, i: nat, j: nat, k: nat)
    requires i < j < |traj|
    ensures ClashFrom(traj, i, j, k) <==> exists k': nat :: k <= k' && ClashAt(traj, i, j, k')
    decreases |traj[i]| - k
  {
    if k < |traj[i]| {
      ClashFromIff(traj, i, j, k + 1);
      if ClashAt(traj, i, j, k) {
        assert exists k': nat :: k <= k' && ClashAt(traj, i, j, k');
      }
      if exists k': nat :: k <= k' && ClashAt(traj, i, j, k') {
        var k' :| k <= k' && ClashAt(traj, i, j, k');
        if k' > k {
          assert k + 1 <= k' && ClashAt(traj, i, j, k');
        }
      }
    }
  }

  lemma {:induction false} ClashWithLaterIff(traj: seq<seq<Coord>>, i: nat, j: nat)
    requires i < |traj|
    ensures ClashWithLater(traj, i, j) <==> exists j': nat, k: nat :: j <= j' && ClashAt(traj, i, j', k)
    decreases |traj| - j
  {
    if j < |traj| {
      if j <= i {
        ClashWithLaterIff(traj, i, i + 1);
        if exists j': nat, k: nat :: j <= j' && ClashAt(traj, i, j', k) {
          var j': nat, k: nat :| j <= j' && ClashAt(traj, i, j', k);
          assert i + 1 <= j' && ClashAt(traj, i, j', k);
        }
      } else {
        ClashFromIff(traj, i, j, 0);
        ClashWithLaterIff(traj, i, j + 1);
        if exists j': nat, k: nat :: j <= j' && ClashAt(traj, i, j', k) {
          var j': nat, k: nat :| j <= j' && ClashAt(traj, i, j', k);
          if j' == j {
            assert 0 <= k && ClashAt(traj, i, j, k);
          } else {
            assert j + 1 <= j' && ClashAt(traj, i, j', k);
          }
        }
        if ClashFrom(traj, i, j, 0) {
          var k: nat :| 0 <= k && ClashAt(traj, i, j, k);
          assert j <= j && ClashAt(traj, i, j, k);
        }
      }
    }
  }

  lemma {:induction false} ClashFromRobotIff(traj: seq<seq<Coord>>, i: nat)
    ensures ClashFromRobot(traj, i) <==> exists i': nat, j: nat, k: nat :: i <= i' && ClashAt(traj, i', j, k)
    decreases |traj| - i
  {
    if i < |traj| {
      ClashWithLaterIff(traj, i, i + 1);
      ClashFromRobotIff(traj, i + 1);
      if exists i': nat, j: nat, k: nat :: i <= i' && ClashAt(traj, i', j, k) {
        var i': nat, j: nat, k: nat :| i <= i' && ClashAt(traj, i', j, k);
        if i' == i {
          assert i + 1 <= j && ClashAt(traj, i, j, k);
        } else {
          assert i + 1 <= i' && ClashAt(traj, i', j, k);
        }
      }
      if ClashWithLater(traj, i, i + 1) {
        var j: nat, k: nat :| i + 1 <= j && ClashAt(traj, i, j, k);
        assert i <= i && ClashAt(traj, i, j, k);
      }
    }
  }

  lemma {:induction false} JumpFromIff(traj: seq<seq<Coord>>, i: nat, j: nat)
    requires i < |traj|
    ensures JumpFrom(traj, i, j) <==> exists j': nat :: j <= j' && JumpAt(traj, i, j')
    decreases |traj[i]| - j
  {
    if j + 1 < |traj[i]| {
      JumpFromIff(traj, i, j + 1);
      if JumpAt(traj, i, j) {
        assert j <= j && JumpAt(traj, i, j);
      }
      if exists j': nat :: j <= j' && JumpAt(traj, i, j') {
        var j': nat :| j <= j' && JumpAt(traj, i, j');
        if j' > j {
          assert j + 1 <= j' && JumpAt(traj, i, j');
        }
      }
    }
  }

  lemma {:induction false} JumpFromRobotIff(traj: seq<seq<Coord>>, i: nat)
    ensures JumpFromRobot(traj, i) <==> exists i': nat, j: nat :: i <= i' && JumpAt(traj, i', j)
    decreases |traj| - i
  {
    if i < |traj| {
      JumpFromIff(traj, i, 0);
      JumpFromRobotIff(traj, i + 1);
      if exists i': nat, j: nat :: i <= i' && JumpAt(traj, i', j) {
        var i': nat, j: nat :| i <= i' && JumpAt(traj, i', j);
        if i' == i {
          assert 0 <= j && JumpAt(traj, i, j);
        } else {
          assert i + 1 <= i' && JumpAt(traj, i', j);
        }
      }
      if JumpFrom(traj, i, 0) {
        var j: nat :| 0 <= j && JumpAt(traj, i, j);
        assert i <= i && JumpAt(traj, i, j);
      }
    }
  }

  /** The verdict names exactly the first check, in the original's order,
      that the trajectories fail. */
  lemma CheckMeaning(plan: seq<seq<Coord>>, traj: seq<seq<Coord>>)
    requires Shaped(plan, traj)
    ensures Check(plan, traj) == WrongEnds <==> !AllEndsMatch(plan, traj)
    ensures Check(plan, traj) == Collides <==> AllEndsMatch(plan, traj) && SomeClash(traj)
    ensures Check(plan, traj) == Jumps <==> AllEndsMatch(plan, traj) && !SomeClash(traj) && SomeJump(traj)
    ensures Check(plan, traj) == Valid <==> AllEndsMatch(plan, traj) && !SomeClash(traj) && !SomeJump(traj)
  {
    EndsFromIff(plan, traj, 0);
    ClashFromRobotIff(traj, 0);
    JumpFromRobotIff(traj, 0);
  }

  /** Trajectories that retrace their plans exactly always pass the first
      check, so a completed run is judged on the plan alone. */
  lemma RetracedPlan(plan: seq<seq<Coord>>)
    requires forall i | 0 <= i < |plan| :: |plan[i]| > 0
    ensures Shaped(plan, plan) && AllEndsMatch(plan, plan)
    ensures Check(plan, plan) == Valid <==> !SomeClash(plan) && !SomeJump(plan)
  {
    CheckMeaning(plan, plan);
  }
}
