# BTPG in Dafny

A model of the core of BTPG, a planner that turns the paths of a
multi-robot plan into a Temporal Plan Graph (TPG), upgrades some of the
graph's precedence edges to bidirectional ones (the BTPG), and replays
plans under random robot delays to compare the two graphs.

The model has three parts.

- **TPG construction.** Every robot's cells become a chain of nodes
  linked by Type-1 edges, with timesteps 0, 1, 2, and so on. When two
  robots use one cell at different times, a Type-2 edge is added from
  the earlier robot's next node to the later robot's node.
  - Nodes live in an arena `nodes[robot][step]`. A `NodeRef` is
    `Null` or `At(robot, step)`.
  - Edges live in an append-only table. The id of an edge is its index
    in the table.
  - `TpgSpec` states what the four nested loops compute, as a function
    over the paths. `Tpg.TPG` is the class whose constructor runs those
    loops.
- **BTPG upgrade.**
  - `Grouping` groups the Type-2 edges into runs.
  - `Btpg.BTPG` tries every singleton group's edge as a bidirectional
    candidate. It probes the candidate with the backtracking search of
    `Search`, rolls the probe back, and commits a reverse edge and a
    `BiPair` when the search finds no cycle.
  - `BtpgSpec` holds the graph invariants and the commit as values.
- **Simulation.** `Simulation.Sim` replays the plan on the BTPG, on the
  TPG, and on the TPG with no delays.
  - A timestep repeats rounds. Each round is a pass over the robots to
    re-check, then a search for a rotation: a cycle of robots each
    waiting for the next.
  - A round ends the timestep when it moves nobody (`SimStep`).
  - `SimState` holds the run state and its invariants. `Validity` holds
    the three path checks run after a simulation.

The three simulation variants share one step, parameterised by
`Variant`. The differences between them are kept:

- Only the BTPG run may skip an unclaimed bidirectional pair.
- Only the TPG run counts delays.
- The no-delay run treats every robot as movable. Its rotation step
  also does not drop rotation members from the re-check list. As a
  result, a robot may enter two nodes in one no-delay timestep. The
  model keeps this behaviour, and proves "at most one node per
  timestep" only for the BTPG and TPG runs.

Randomness is an input. `rands: nat -> nat` stands for the values
`rand()` returns after `srand(seed)`. Every simulation re-seeds, so each
run reads `rands` from index 0. A draw lets a robot move when
`draw / RAND_MAX > 0.3`, written exactly as `10 * draw > 3 * RAND_MAX`.
The wall-clock budget of the upgrade loop is a `Budget`: either
unlimited, or a number of time checks that still find time left.

## Model

| member | source | states |
|---|---|---|
| Util.DefaultCoord | inc/util.hpp:19-23 | the default coordinate is (-1, -1) |
| Util.CoordEqIff | inc/util.hpp:41-44 | `==` holds exactly when both components agree, which is value equality |
| Util.CoordNeIsNegation | inc/util.hpp:51-54 | `!=` is exactly the negation of `==`; it is symmetric |
| Util.Manhattan | src/Sim.cpp:440-447 | the Manhattan distance used by the jump check is 0 exactly for equal cells |
| Util.DefaultNode | inc/util.hpp:82-91 | a default node has no Type-1 links, empty Type-2 lists, timestep -1 and robot -1 |
| Util.NodeAt | inc/util.hpp:92-101 | `Node(x, y)` is the default node placed at (x, y) |
| Util.DefaultAgent | inc/util.hpp:125-131 | a default agent has no chain, path length 0, and every id and finish time -1 |
| Util.DefaultType2Edge | inc/util.hpp:161-172 | a fresh edge has no endpoints, edge, group and pair ids -1, and every flag false |
| Util.DefaultGroup | inc/util.hpp:190-195 | a fresh group is empty, with ids -1 |
| Util.NewBiPair | inc/util.hpp:216-220 | `BiPair(first, second)` stores the original and flipped ids and is not yet visited |
| Util.DefaultBiPair | inc/util.hpp:225-229 | a default pair has both edge ids -1 and is not visited |
| TpgSpec.ScanAllBounds | src/TPG.cpp:61-91 | the links made for robots below k all leave nodes of those robots |
| TpgSpec.ScanAllSound | src/TPG.cpp:68-84 | every link the loops make comes from a conflict: same cell, later timestep, another robot |
| TpgSpec.ScanAllAscending | src/TPG.cpp:61-91 | the loops make links in strictly ascending order, so never the same link twice |
| TpgSpec.ScanAllComplete | src/TPG.cpp:68-84 | every conflict of robots below k yields its link |
| TpgSpec.ScanOtherSelf | src/TPG.cpp:70 | comparing a robot with itself makes no link |
| TpgSpec.AscendingStrict | src/TPG.cpp:61-91 | a sequence in loop order is strictly sorted |
| TpgSpec.MakeEdge | src/TPG.cpp:77-80 | the id-th edge goes from the earlier robot's next node to the later robot's node, with id `id`, no group, no pair, not bidirectional |
| TpgSpec.EdgeTable | src/TPG.cpp:80-81 | one table entry per link |
| TpgSpec.EdgeTableAppend | src/TPG.cpp:80-81 | appending a link appends the edge whose id is the old table length |
| TpgSpec.OutIdsExact | src/TPG.cpp:82 | a node's outgoing list is exactly the ids of the edges leaving it, increasing |
| TpgSpec.InIdsExact | src/TPG.cpp:83 | a node's incoming list is exactly the ids of the edges entering it, increasing |
| TpgSpec.OutInIdsAppend | src/TPG.cpp:82-83 | a new edge extends exactly the lists of its two endpoints |
| TpgSpec.ConflictEdgesWellFormed | src/TPG.cpp:68-84 | every edge has its position as id, joins nodes of two different robots, and never goes back in time |
| TpgSpec.ConflictEdgesDistinct | src/TPG.cpp:68-84 | no two edges share both endpoints |
| TpgSpec.ConflictEdgesComplete | src/TPG.cpp:68-84 | each conflict of robots r != r2 yields the edge from (r, t+1) to (r2, t2) |
| Tpg.PushOut | src/TPG.cpp:82 | pushing an id onto a node's outgoing list changes that list alone |
| Tpg.PushIn | src/TPG.cpp:83 | pushing an id onto a node's incoming list changes that list alone |
| Tpg.ListsMatchAfterLink | src/TPG.cpp:81-83 | appending an edge and listing it at both endpoints keeps every list equal to the ids of its node's edges |
| Tpg.ListsMatchOk | src/TPG.cpp:82-83 | lists that match the table only name edges of the table |
| Tpg.ConflictTableOk | src/TPG.cpp:61-91 | the constructed table is well formed over any arena holding the paths |
| Tpg.BuildChain | src/TPG.cpp:23-55 | robot r's chain has timesteps 0..n-1, the cells of its path, linked both ways; its path length is n and its id is r |
| Tpg.TPG.constructor | src/TPG.cpp:4-91 | the graph holds one chain per path, the edge table is exactly the conflict edges in loop order, and every node lists exactly its edges |
| Tpg.TPG.AddTypeTwoEdges | src/TPG.cpp:61-91 | the edge loops produce the whole conflict table and keep the lists matching |
| Tpg.TPG.AddRobotEdges | src/TPG.cpp:63-90 | after robot r the table holds the links of robots 0..r |
| Tpg.TPG.AddNodeEdges | src/TPG.cpp:68-87 | after node (r, t) the table has grown by that node's links |
| Tpg.TPG.AddPairEdges | src/TPG.cpp:70-86 | after robot `other` the table has grown by the links from node (r, t) to that robot |
| Tpg.TPG.CompareNodes | src/TPG.cpp:75-84 | one comparison adds the edge exactly when the two nodes conflict |
| Tpg.TPG.LinkEdge | src/TPG.cpp:77-83 | the new edge is appended, counted and listed at both endpoints; nothing else changes |
| Tpg.TPG.GetNumAgents | src/TPG.cpp:100-103 | the number of robots equals the number of chains |
| Tpg.TPG.AddRobot | src/TPG.cpp:105-109 | appends the robot and counts it; the edges are unchanged |
| Tpg.TPG.AddTypeTwoEdge | src/TPG.cpp:111-115 | appends the edge and counts it; the robots and nodes are unchanged |
| Tpg.TPG.GetNumTypeTwoEdges | src/TPG.cpp:117-120 | the edge count is the table length |
| Tpg.TPG.GetAgent | src/TPG.cpp:122-125 | robot i has id i and its chain's length as path length |
| Tpg.TPG.GetTypeTwoEdge | src/TPG.cpp:127-130 | edge i has id i and joins existing nodes |
| Tpg.TPG.RemoveTypeTwoEdge | src/TPG.cpp:132-136 | erases the entry at the edge's id and decrements the count |
| Tpg.RemoveLastRestores | src/TPG.cpp:132-136 | erasing the most recently appended edge gives back the previous table |
| Tpg.Type1Inverse | src/TPG.cpp:23-55 | Type1Next and Type1Prev are mutual inverses, and exactly the first node has no predecessor |
| Search.AllNodesHas | src/BTPG.cpp:305-488 | every node of the arena is among the nodes the search can enter |
| Search.PushShrinks | src/BTPG.cpp:339-340 | pushing a new node leaves fewer nodes off the path, so the search terminates |
| Search.BackToHas | src/BTPG.cpp:420-427 | the reverse walk collects every node after the last occurrence of the target |
| Search.BackToOnly | src/BTPG.cpp:420-427 | the reverse walk collects only such nodes |
| Search.BackToExact | src/BTPG.cpp:367-374 | a node is collected exactly when it lies on the path after the last occurrence of the target |
| Search.CollectBackTo | src/BTPG.cpp:398-405 | the reverse walk yields exactly `BackTo` |
| Search.Search.constructor | src/BTPG.cpp:237-275 | the end node's predecessors are visited, every revisit set is empty, the path is empty and both maps hold -1 |
| Search.Search.Dfs | src/BTPG.cpp:305-488 | never enters a path node; on failure the path is as on entry; on success the path grown since entry, followed by the end node, is a walk from `curr` along Type-1 and Type-2 edges; at the end node it succeeds exactly when a Type-1 edge was used or the path has more than 2 nodes, and otherwise un-marks every path node but the first |
| Search.Search.Expand | src/BTPG.cpp:337-487 | a failing search from a node other than the end node leaves the path as on entry; a successful one has walked from it to the end node |
| Search.Search.Push | src/BTPG.cpp:339-340 | the node is appended to the path and added to its set; nothing else changes |
| Search.Search.Pop | src/BTPG.cpp:484-485 | the last node leaves the path and its set; nothing else changes |
| Search.Search.ExploreEdges | src/BTPG.cpp:343-467 | a failing edge loop leaves the path as on entry; a successful one has walked from the current node to the end node |
| Search.Search.ExploreEdge | src/BTPG.cpp:343-467 | a failing edge leaves the path as on entry; a successful one has walked from the current node, through the edge's target, to the end node |
| Search.Search.CheckSkip | src/BTPG.cpp:350-430 | deciding to skip only adds to revisit sets; not skipping changes nothing |
| Search.Search.UnmarkPathTail | src/BTPG.cpp:328-332 | exactly the path nodes but the first are un-marked |
| Search.Search.RevisitBackTo | src/BTPG.cpp:420-427 | revisit set `id` gains exactly `BackTo(path, target)` |
| Search.Search.Backtrack | src/BTPG.cpp:448-461 | both map entries become -1, the edge's revisit set is un-marked and then cleared |
| Search.ReachedBack | src/BTPG.cpp:337-487 | a walk found one level down, after a move from the current node, is a walk from the current node |
| Search.WalkKept | src/BTPG.cpp:227-302 | a walk that does not use the temporary reverse edge is a walk in the table the probe restores |
| Grouping.GroupSteps | src/BTPG.cpp:44-64 | along a group, the sources are consecutive nodes of one robot |
| Grouping.GroupDistinct | src/BTPG.cpp:39-64 | a group never lists an edge twice, and all its members leave robot `fromId` |
| Grouping.ExactlyOneGroup | src/BTPG.cpp:28-66 | with every edge grouped, each edge is in exactly the group its `groupId` names |
| Grouping.FindNext | src/BTPG.cpp:47-59 | returns the first listed edge that is ungrouped, targets `toId` and has a target timestep ±1 from the last, or the list length |
| Grouping.Mark | src/BTPG.cpp:40-42 | marking an edge grouped changes only its grouping fields |
| Grouping.OpenGroup | src/BTPG.cpp:35-42 | opening a group with an ungrouped edge keeps the tables consistent |
| Grouping.AddMember | src/BTPG.cpp:51-57 | adding an edge that follows the last member keeps the tables consistent |
| Grouping.TipMaximal | src/BTPG.cpp:61-62 | when the next node lists no continuing edge, the group cannot be extended |
| Grouping.ContinuesFollows | src/BTPG.cpp:51-63 | an edge that passes the test follows the last member, one step down the chain |
| Grouping.StartGroup | src/BTPG.cpp:33-66 | the new group grows along the source chain and ends maximal |
| Grouping.GroupNode | src/BTPG.cpp:26-67 | every edge listed at the node ends up grouped; earlier groups are unchanged; every group stays maximal and no member of a later group could have extended an earlier one |
| Grouping.GroupListed | src/BTPG.cpp:30-65 | a listed edge ends up grouped, already grouped edges stay so, and the group table stays well formed, maximal and greedy |
| Grouping.CloseGroup | src/BTPG.cpp:33-66 | seeding a group at an ungrouped edge appends one group and keeps the table well formed, maximal and greedy |
| Grouping.GroupEdges | src/BTPG.cpp:19-71 | every edge is grouped and a member of the group its `groupId` names, the groups are well formed, nothing else changed, and no member of a later group could have extended an earlier group: each run was extended greedily as far as it would go |
| Grouping.GreedyKept | src/BTPG.cpp:33-66 | closing a maximal group keeps every group maximal and no later member able to extend an earlier group |
| Grouping.MaximalKept | src/BTPG.cpp:33-66 | closing a maximal group keeps every earlier group maximal, since an edge ungrouped afterwards was ungrouped before |
| BtpgSpec.GroupsKept | src/BTPG.cpp:28-66 | groups stay well formed while grouping fields are unchanged |
| BtpgSpec.NaiveRejectIff | src/BTPG.cpp:218-225 | the early rejection happens exactly when the target is its robot's last node or the source is its robot's second node |
| BtpgSpec.CommitPairsOk | src/BTPG.cpp:201-208 | the new pair links the candidate and its reverse, and the pair table stays consistent |
| BtpgSpec.ReverseListing | src/BTPG.cpp:191-199 | the reverse edge is listed at the successor of its recorded source and the predecessor of its recorded target |
| BtpgSpec.CommitEdgesOk | src/BTPG.cpp:186-199 | old edges keep ids, endpoints and groups; the reverse edge swaps the candidate's endpoints |
| BtpgSpec.GroupedStart | src/BTPG.cpp:19-71 | the grouped TPG with no pairs is a valid BTPG |
| BtpgSpec.CommitKeepsGrouping | src/BTPG.cpp:186-208 | a commit leaves every old edge's group unchanged |
| BtpgSpec.CommitOk | src/BTPG.cpp:186-208 | committing an accepted candidate keeps the BTPG well formed |
| BtpgSpec.CommitValues | src/BTPG.cpp:186-207 | the candidate becomes bidirectional, the reverse edge gets the old edge count as id, the pair gets the old pair count, and both edges record the pair |
| BtpgSpec.PendingCount | src/BTPG.cpp:87-122 | the number of pending singleton candidates is at most the number of groups |
| BtpgSpec.PendingCountDrops | src/BTPG.cpp:112-120 | a group that stops being pending lowers the count by one |
| BtpgSpec.CommitProgress | src/BTPG.cpp:180-211 | committing a pending singleton upgrades exactly that candidate |
| Btpg.BTPG.GetNumBiPairs | src/BTPG.cpp:169-172 | the pair count is the table length |
| Btpg.BTPG.GetBiPair | src/BTPG.cpp:174-177 | pair i links two existing bidirectional edges that both record i, with swapped endpoints |
| Btpg.BTPG.AddBiPair | src/BTPG.cpp:164-167 | appends the pair |
| Btpg.BTPG.GetNumType2EdgeGroups | src/BTPG.cpp:149-152 | the group count is the table length |
| Btpg.BTPG.GetType2EdgeGroup | src/BTPG.cpp:159-162 | group g is a non-empty, well-formed run of existing edges |
| Btpg.BTPG.AddType2EdgeGroup | src/BTPG.cpp:154-157 | appends the group |
| Btpg.BTPG.CheckSingletonValidity | src/BTPG.cpp:213-303 | leaves the edge table, arena, robots and counts as it found them; accepts exactly when the naive test passes and the probe finds nothing; a probe that finds something has a walk from the node before the source to the node after the target |
| Btpg.BTPG.Probe | src/BTPG.cpp:227-302 | the temporary bidirectional mark and reverse edge are undone on both return paths; when the search succeeds it has walked from the node before the source to the node after the target |
| Btpg.BTPG.CheckSingleton | src/BTPG.cpp:180-211 | the pair table changes exactly when the candidate was not bidirectional and was accepted, and then exactly the commit happens; a rejection that passed the naive test comes with the walk the probe found |
| Btpg.BTPG.Commit | src/BTPG.cpp:186-208 | performs the commit and keeps the BTPG valid |
| Btpg.BTPG.TryGroup | src/BTPG.cpp:89-121 | a group of several edges is passed over; a singleton may add one pair, upgrading exactly that candidate |
| Btpg.BTPG.TrySingleton | src/BTPG.cpp:112-120 | the pair count grows by the number of candidates upgraded |
| Btpg.BTPG.Pass | src/BTPG.cpp:87-122 | one pass upgrades as many candidates as it adds pairs, and stops early only on an exhausted budget |
| Btpg.BTPG.PassGroup | src/BTPG.cpp:89-121 | one turn of the pass carries the progress since the pass began and the budget checks |
| Btpg.BTPG.Upgrade | src/BTPG.cpp:83-133 | mode 0 makes exactly one pass; otherwise passes repeat until one adds no pair; `finish` only when the loop ended on its own |
| Btpg.BTPG.constructor | src/BTPG.cpp:8-147 | a valid BTPG in which every constructed edge is grouped; with no time limit it finishes |
| Validity.EndsFromIff | src/Sim.cpp:401-416 | the first loop passes exactly when every trajectory starts and ends on its plan's ends |
| Validity.ClashFromIff | src/Sim.cpp:423-433 | the inner loop finds a shared cell at a shared index exactly when one exists |
| Validity.ClashWithLaterIff | src/Sim.cpp:421-434 | robot i clashes with a later robot exactly when the middle loop says so |
| Validity.ClashFromRobotIff | src/Sim.cpp:419-435 | the collision loops find a clash exactly when two robots share a cell at one index |
| Validity.JumpFromIff | src/Sim.cpp:440-447 | the inner loop finds a jump exactly when robot i has one |
| Validity.JumpFromRobotIff | src/Sim.cpp:438-448 | the jump loops find a jump exactly when some consecutive cells are more than one step apart |
| Validity.CheckMeaning | src/Sim.cpp:397-450 | the verdict names exactly the first failing check, in the original's order |
| Validity.RetracedPlan | src/Sim.cpp:397-450 | trajectories equal to the plan pass the end check, and are valid exactly when the plan has no clash and no jump |
| SimState.Plan | src/Sim.cpp:397-450 | the planned cells, robot by robot, as the chains hold them |
| SimState.FirstUnvisited | src/Sim.cpp:472 | the first false entry, or the length; every earlier entry is true |
| SimState.NoneLeft | src/Sim.cpp:69 | nothing left to visit means every robot has finished |
| SimState.LeftMoved | src/Sim.cpp:503-511 | one robot entering a node leaves one node fewer to visit |
| SimState.LeftShrinks | src/Sim.cpp:464-531 | robots only move forward, so the nodes left never grow |
| SimState.Without | src/Sim.cpp:805 | erase-remove drops every occurrence of x and keeps the rest |
| SimState.AllRobots | src/Sim.cpp:457-460 | the first re-check list holds each robot once, in order |
| SimState.CompleteIsPlan | src/Sim.cpp:69 | a run in which every robot finished has retraced the plan |
| SimState.EnteredHonored | src/Sim.cpp:480-519 | a node entered with every incoming edge passable has every incoming edge honoured afterwards |
| SimState.HonoredGrows | src/Sim.cpp:464-531 | visits and claims only accumulate, so honoured edges stay honoured |
| SimState.ClosedGrows | src/Sim.cpp:464-531 | the safety invariant survives growth when each new node is honoured |
| SimState.NextUnvisited | src/Sim.cpp:472-477 | an unfinished robot's first unvisited entry is its next node |
| SimState.WaitingRobots | src/Sim.cpp:706-744 | distinct waiting nodes belong to distinct robots |
| SimStep.NodeOnPath | src/Sim.cpp:474-478 | walking k Type-1 links from the head reaches node k |
| SimStep.AnyReadyExists | src/Sim.cpp:470-524 | some listed robot is ready exactly when one unfinished listed robot has its next node open |
| SimStep.CheckIncoming | src/Sim.cpp:479-497 | clear exactly when every incoming edge is exempt, claimable or from a visited node; collects the claimable pairs; the blocker is the source of the first edge that is not passable |
| SimStep.ClaimPairs | src/Sim.cpp:512-519 | the claimed pairs become visited; the counter grows by the claims whose flipped edge leaves the robot |
| SimStep.MarkPairs | src/Sim.cpp:829-832 | the claimed pairs become visited |
| SimStep.Enter | src/Sim.cpp:503-511 | the node is visited, its cell appended, and the robot finished at `now` exactly when the node is its last |
| SimStep.EnterPassed | src/Sim.cpp:503-519 | a cleared robot enters its next node; its claimed pairs become visited and the counter grows by the claims whose flipped edge leaves it; the run stays safe |
| SimStep.VisitRobot | src/Sim.cpp:470-524 | a finished robot is skipped; otherwise it is blocked (with the stop `StopsOf` defines), held, or enters one node and claims its pairs; only robot i changes |
| SimStep.PassTurn | src/Sim.cpp:470-524 | one robot's turn keeps the pass's bookkeeping; nobody has moved yet exactly when no robot so far was ready, and then the stops are exactly those of the robots so far |
| SimStep.NoneReadyNext | src/Sim.cpp:470-524 | one more robot visited keeps "nobody moved exactly when nobody was ready, with the stops of the robots so far" |
| SimStep.StopFrom | src/Sim.cpp:713-741 | the first stop from q on whose robot waits to enter the target, or the length, with no earlier match |
| SimStep.Pass | src/Sim.cpp:468-526 | every robot of the list is skipped, blocked and recorded, held, or moved once; nobody moved exactly when no robot of the list was ready, and then the stops are `StopsOf` the list |
| SimStep.FindStop | src/Sim.cpp:713-741 | the first stop whose robot waits to enter the target, or none, as `StopFrom` defines |
| SimStep.FindRotation | src/Sim.cpp:697-744 | the chain follows the blockers without repeating a robot; the result is exactly the chain `Chain` defines, a cycle exactly when the last blocker is the first member |
| SimStep.ChainGrows | src/Sim.cpp:713-741 | taking the stop where the current blocker waits, when its node is new, extends the chain one step as `Chain` does |
| SimStep.SearchRotations | src/Sim.cpp:693-744 | finds the first rotation among the stops, or reports none |
| SimStep.RotationWaits | src/Sim.cpp:706-744 | the members of a rotation are waiting robots from the stops |
| SimStep.CycleClear | src/Sim.cpp:746-792 | clear exactly when every member's node is open with the members exempt |
| SimStep.MemberClear | src/Sim.cpp:750-790 | one member is clear exactly when its node is open with the members exempt, and then its claims cover it |
| SimStep.CoversGrow | src/Sim.cpp:746-792 | one more open, covered member extends the clear prefix; claims only accumulate |
| SimStep.Admit | src/Sim.cpp:793-806 | the rotation may move exactly when every member is movable (always in the no-delay run); members leave the re-check list except in the no-delay run |
| SimStep.EnterMember | src/Sim.cpp:811-830 | one member enters its next node and the claims are recorded |
| SimStep.MoveMembers | src/Sim.cpp:807-832 | every member enters its next node |
| SimStep.MembersVisited | src/Sim.cpp:807-832 | after the move every member's node is visited |
| SimStep.Advance | src/Sim.cpp:807-832 | after a joint move every edge into a member node is honoured |
| SimStep.MovedHonored | src/Sim.cpp:807-832 | the nodes a joint move entered are the members' nodes, so all of them are honoured |
| SimStep.MoveCleared | src/Sim.cpp:793-832 | the members move all together or not at all |
| SimStep.Rotate | src/Sim.cpp:744-832 | the members count as ready exactly when all their nodes are open; they move all or none |
| SimStep.MoveRotation | src/Sim.cpp:695-842 | only the first rotation found is handled; members move exactly when a rotation exists and every member's node is open; nothing moves otherwise |
| SimStep.Round | src/Sim.cpp:466-531 | the nodes left drop by exactly the number of moves; the run stays safe; nobody moves exactly when no listed robot is ready and the first rotation of their stops is not clear |
| SimStep.TimeStep | src/Sim.cpp:451-538 | reports a deadlock exactly when the run is `Stuck`, and a deadlock changes nothing; the run stays safe; BTPG and TPG robots enter at most one node; no-delay timesteps progress |
| SimStep.StuckFirstRound | src/Sim.cpp:451-538 | a first round over every robot moves nobody exactly when the run is `Stuck` |
| Simulation.NextStops | src/Sim.cpp:1109-1124 | a running pause counts down; otherwise a bad draw starts a pause of 5 |
| Simulation.Paused | src/Sim.cpp:1112-1115 | a pause of c holds the robot for c timesteps whatever it draws |
| Simulation.SitsOutFive | src/Sim.cpp:1109-1124 | a bad draw makes a delayed robot sit out five timesteps and draw again on the sixth |
| Simulation.DecideRobot | src/Sim.cpp:1108-1131 | a delayed robot consumes one draw and moves exactly when released; other robots always move |
| Simulation.DecideNext | src/Sim.cpp:1106-1132 | one more robot decided keeps the choice exact |
| Simulation.DecideMovable | src/Sim.cpp:1104-1133 | the movable list is exactly the robots that may move, in order; each delayed robot consumes one draw |
| Simulation.Start | src/Sim.cpp:27-62 | every robot has visited its first node and stands on its first cell; nothing is finished or claimed |
| Simulation.TickKept | src/Sim.cpp:64-75 | one more timestep keeps the loop invariant |
| Simulation.Tick | src/Sim.cpp:64-75 | one timestep keeps the loop invariant; it deadlocks exactly when the run is `Stuck`, and then changes nothing; a no-delay timestep that does not deadlock lowers the moves left |
| Simulation.Drive | src/Sim.cpp:64-75 | completes exactly when every robot finished, and then the trajectories are the plan; a deadlock is reported only on a `Stuck` run; running out of steps happens only at the budget; no-delay runs finish within the moves left |
| Simulation.Traced | src/Sim.cpp:472-511 | trajectories follow the plans, and a robot finished exactly when its trajectory is its whole plan |
| Simulation.StampOk | src/Sim.cpp:506-510 | writing finish times keeps the graph valid |
| Simulation.StartLeft | src/Sim.cpp:27-62 | at the start every robot has all its moves left |
| Simulation.Perform | src/Sim.cpp:22-88 | paths follow the plans, finish times are set for finished robots, completion iff the paths are the plan, and a completed run gets a verdict |
| Simulation.LinkedPairs | src/Sim.cpp:512-519 | every bidirectional edge names a pair whose flipped edge exists |
| Simulation.FinishTimes | src/Sim.cpp:506-510 | the finish time of each robot for the given run |
| Simulation.Stamp | src/Sim.cpp:506-510 | only the run's own finish-time field is written |
| Simulation.Quot | src/Sim.cpp:247 | C++ division truncates toward zero; on non-negative numbers it is Euclidean division |
| Simulation.Average | src/Sim.cpp:238-283 | the sum of the finish times, plus `extra`, divided by the number of robots; at least 1 when every time is |
| Simulation.Report | src/Sim.cpp:22-88 | the robots get the run's finish times; completion iff the paths are the plan; the average is set only on completion |
| Simulation.Sim.constructor | src/Sim.cpp:6-17 | one delayed robot per draw, `rands(k) % numRobots` |
| Simulation.Sim.SimulateBtpg | src/Sim.cpp:22-88 | the BTPG stays valid, finish times are written, and on completion the paths are the plan and the average is set |
| Simulation.Sim.SimulateTpg | src/Sim.cpp:93-157 | as for the BTPG, with TPG finish times and a delay count that never decreases |
| Simulation.Sim.SimulateNoDelay | src/Sim.cpp:162-225 | never runs out of steps within the moves left; on completion the expected delay is (total finish times + TPG delays) / robots |

## Left out

- File reading, token parsing, printing, `#ifdef DEBUG` blocks and the
  command-line driver are not modelled. The TPG is built from a
  sequence of coordinate sequences.
- `std::chrono` timing becomes `Budget`: the number of time checks that
  find time left.
- `srand`/`rand` become the stream `rands`. The original decides the
  number of delayed robots with a floating-point loop, `i < 0.1 *
  numRobots`; that count is an input of the constructor. The draw test
  `(double) rand() / RAND_MAX > 0.3` is stated exactly on integers,
  without the rounding of the double division.
- `exit(1)` on a deadlock or an invalid path becomes an `Outcome` or a
  `Verdict`.
- The simulation loop runs under a step budget. With an arbitrary draw
  stream, the delayed runs are not guaranteed to end. The no-delay run
  is proved to finish within the number of moves left.
- The simulation requires at least one robot and paths of at least two
  cells. With a one-cell path the original walks to a null successor;
  with no robots its averages divide by zero.
- The construction requires that no robot ends on a cell another robot
  visits later. There the original dereferences a null successor.
- Raw pointers, `new`/`delete`, `numBiPairs`, `BiGroupPair`,
  `biGroupId`, `isGroupedBidirectional` and `Coord::Hash` are not
  modelled. Edges and nodes are arena indices.
- In `BidirectionalDFS`, the branch that walks the recursion path back
  (src/BTPG.cpp:363-375 and 394-406) runs only when the last path node
  belongs to another robot. The last path node is always the current
  node itself, so that branch is dead, and the model keeps only the
  live branch.
- Btpg.BTPG.CheckSingletonValidity: requires a candidate that is not
  bidirectional yet, which is how its one caller uses it.
- Btpg.BTPG.Probe: a success comes with a walk from the node before the
  candidate's source to the node after its target. The converse is not
  stated: the pruning through the revisit sets and the `enter`/`leave`
  maps (`CheckSkip`) is modelled step by step but not characterised as a
  whole, so the model does not say which walks the search is bound to
  find. The candidate's own route is always such a walk, so the walk
  alone does not decide acceptance.
- Btpg.BTPG.CheckSingletonValidity, Btpg.BTPG.CheckSingleton: acceptance
  is stated exactly in terms of the probe's result, and that result only
  as far as `Probe` states it.
- Btpg.BTPG.Commit: writes the new arena and edge table in one step,
  rather than field by field.
- Simulation.Sim.SimulateBtpg: returns the claimed-pair flags instead of
  writing `isVisited` into the BTPG's pairs, because a valid BTPG keeps
  its pairs unvisited. For the same reason it does not state that
  `numBidirectionalEdgesIsUsed` grows.
- Simulation.Sim.SimulateBtpg, Simulation.Sim.SimulateTpg,
  Simulation.Sim.SimulateNoDelay: finish times are written once, at the
  end of the run, with the values the run recorded. Each method requires
  its generated-path field to be empty, so a second call on one `Sim` is
  not modelled.
- The getters `GetTPGAverageTime`, `GetBTPGAverageTime`,
  `GetExpectedDelay` and `GetNumBidirectionalEdgesIsUsed` return fields
  and carry no contracts.
