/** The Bidirectional TPG (src/BTPG.cpp): a TPG whose Type-2 edges are
    grouped into runs, and whose singleton runs are each probed for a safe
    upgrade to a bidirectional pair. The original class derives from `TPG`;
    here a `BTPG` object owns its `TPG` part as the constant `tpg` and
    updates it in place. */
module Btpg {
  import opened Util
  import opened TpgSpec
  import opened Tpg
  import opened Search
  import opened Grouping
  import opened BtpgSpec

  class BTPG {
    /** The TPG part, updated in place. */
    const tpg: TPG
    /** 0 for BTPG-n, 1 for BTPG-o. */
    const mode: int
    var naiveNegativeCase: int
    var finish: bool
    var groups: seq<Type2EdgeGroup>
    var biPairs: seq<BiPair>

    ghost predicate Valid()
      reads this, tpg
    {
      && tpg.numAgents == |tpg.agents| && tpg.numTypeTwoEdges == |tpg.type2Edges|
      && BtpgOk(tpg.agents, tpg.nodes, tpg.type2Edges, groups, biPairs)
    }

    /** `getNumBiPairs`. */
    function GetNumBiPairs(): (n: int)
      reads this
      ensures n == |biPairs|
    {
      |biPairs|
    }

    /** `getBiPair`: pair i links two bidirectional edges that record i. */
    function GetBiPair(i: int): (p: BiPair)
      reads this, tpg
      requires Valid() && 0 <= i < |biPairs|
      ensures p.id == i && 0 <= p.originalId < |tpg.type2Edges| && 0 <= p.flippedId < |tpg.type2Edges|
      ensures tpg.type2Edges[p.originalId].biPairId == i && tpg.type2Edges[p.flippedId].biPairId == i
      ensures tpg.type2Edges[p.flippedId].nodeFrom == tpg.type2Edges[p.originalId].nodeTo
    {
      assert PairOk(tpg.type2Edges, biPairs[i], i);
      biPairs[i]
    }

    /** `addBiPair`. */
    method AddBiPair(p: BiPair)
      modifies this`biPairs
      ensures biPairs == old(biPairs) + [p]
    {
      biPairs := biPairs + [p];
    }

    /** `getNumType2EdgeGroups`. */
    function GetNumType2EdgeGroups(): (n: int)
      reads this
      ensures n == |groups|
    {
      |groups|
    }

    /** `getType2EdgeGroup`: group g is a non-empty run whose members record g. */
    function GetType2EdgeGroup(g: int): (grp: Type2EdgeGroup)
      reads this, tpg
      requires Valid() && 0 <= g < |groups|
      ensures GroupOk(tpg.type2Edges, grp, g)
      ensures |grp.type2Edges| >= 1 && forall k | 0 <= k < |grp.type2Edges| :: grp.type2Edges[k] < |tpg.type2Edges|
    {
      assert GroupOk(tpg.type2Edges, groups[g], g);
      groups[g]
    }

    /** `addType2EdgeGroup`. */
    method AddType2EdgeGroup(grp: Type2EdgeGroup)
      modifies this`groups
      ensures groups == old(groups) + [grp]
    {
      groups := groups + [grp];
    }

    /** Probes whether edge `id` may become bidirectional (src/BTPG.cpp:213-303).
        After the early rejection, it marks the candidate bidirectional,
        appends a temporary reverse edge from the successor of the
        candidate's target to the predecessor of its source, and searches
        from that predecessor for a cycle back to the successor; the
        candidate is accepted when there is none. Either way the graph is
        left exactly as it was. */
    method CheckSingletonValidity(id: nat) returns (valid: bool, ghost found: bool, ghost cycle: seq<NodeRef>)
      requires Valid() && id < |tpg.type2Edges| && !tpg.type2Edges[id].isBidirectional
      modifies this`naiveNegativeCase, tpg
      ensures Valid()
      ensures tpg.type2Edges == old(tpg.type2Edges) && tpg.nodes == old(tpg.nodes) && tpg.agents == old(tpg.agents)
      ensures tpg.numAgents == old(tpg.numAgents) && tpg.numTypeTwoEdges == old(tpg.numTypeTwoEdges)
      ensures valid <==> !NaiveReject(tpg.nodes, tpg.type2Edges[id]) && !found
      ensures found ==> !NaiveReject(tpg.nodes, tpg.type2Edges[id]) && ClosesCycle(tpg.nodes, tpg.type2Edges, id, cycle)
      ensures naiveNegativeCase == old(naiveNegativeCase) + (if NaiveReject(tpg.nodes, tpg.type2Edges[id]) then 1 else 0)
      ensures valid ==> NodeExists(tpg.nodes, EndNode(tpg.nodes, tpg.type2Edges[id]))
      ensures valid ==> NodeExists(tpg.nodes, StartNode(tpg.nodes, tpg.type2Edges[id]))
    {
      var c := tpg.type2Edges[id];
      var startNode := tpg.nodes[c.nodeFrom.robot][c.nodeFrom.step].type1Prev;
      var endNode := tpg.nodes[c.nodeTo.robot][c.nodeTo.step].type1Next;
      found, cycle := false, [];
      if endNode == Null || tpg.nodes[startNode.robot][startNode.step].timeStep == 0 {
        naiveNegativeCase := naiveNegativeCase + 1;
        return false, found, cycle;
      }
      var rejected;
      rejected, cycle := Probe(id, startNode, endNode);
      found := rejected;
      valid := !rejected;
    }

    /** The search of src/BTPG.cpp:227-302 for an accepted edge: the
        candidate is marked bidirectional and its reverse appended for the
        duration of the search, which then looks for a cycle back to the
        start node; both changes are undone afterwards. */
    method Probe(id: nat, startNode: NodeRef, endNode: NodeRef) returns (found: bool, ghost cycle: seq<NodeRef>)
      requires Valid() && id < |tpg.type2Edges| && !tpg.type2Edges[id].isBidirectional
      requires startNode == StartNode(tpg.nodes, tpg.type2Edges[id]) && endNode == EndNode(tpg.nodes, tpg.type2Edges[id])
      requires NodeExists(tpg.nodes, startNode) && NodeExists(tpg.nodes, endNode)
      modifies tpg
      ensures tpg.type2Edges == old(tpg.type2Edges) && tpg.nodes == old(tpg.nodes) && tpg.agents == old(tpg.agents)
      ensures tpg.numAgents == old(tpg.numAgents) && tpg.numTypeTwoEdges == old(tpg.numTypeTwoEdges)
      ensures found ==> ClosesCycle(tpg.nodes, tpg.type2Edges, id, cycle)
    {
      var c := tpg.type2Edges[id];
      var before := tpg.type2Edges;
      tpg.type2Edges := tpg.type2Edges[id := c.(isBidirectional := true)];
      var temp := DefaultType2Edge().(nodeFrom := endNode, nodeTo := startNode,
                                      edgeId := tpg.GetNumTypeTwoEdges(), isBidirectional := true);
      tpg.AddTypeTwoEdge(temp);
      var search := new Search(tpg.nodes, tpg.type2Edges, mode, endNode);
      var startRobot := tpg.nodes[startNode.robot][startNode.step].robotId;
      search.enter := search.enter[startRobot := c.edgeId];
      search.enter := search.enter[startRobot := temp.edgeId];
      found := search.Dfs(startNode, false);
      cycle := search.path + [endNode];
      if found {
        WalkKept(tpg.nodes, before, tpg.type2Edges, cycle);
      }
      tpg.type2Edges := tpg.type2Edges[id := tpg.type2Edges[id].(isBidirectional := false)];
      assert tpg.type2Edges == before + [temp];
      tpg.RemoveTypeTwoEdge(temp);
      RemoveLastRestores(before, temp);
    }

    /** Upgrades edge `id` when the probe accepts it (src/BTPG.cpp:180-211):
        the candidate becomes bidirectional, a reverse edge with the next id
        is appended and listed at the successor of the candidate's target and
        the predecessor of its source, and a pair with the next pair id links
        the two. A bidirectional candidate, or a rejected one, leaves the
        graph and the pair table as they were. */
    method CheckSingleton(id: nat) returns (ghost valid: bool, ghost cycle: seq<NodeRef>)
      requires Valid() && id < |tpg.type2Edges|
      modifies this`naiveNegativeCase, this`biPairs, tpg
      ensures Valid()
      ensures biPairs != old(biPairs) <==> !old(tpg.type2Edges[id].isBidirectional) && valid
      ensures valid ==> !NaiveReject(old(tpg.nodes), old(tpg.type2Edges[id]))
      ensures !old(tpg.type2Edges[id].isBidirectional) && !valid && !NaiveReject(old(tpg.nodes), old(tpg.type2Edges[id])) ==>
        ClosesCycle(old(tpg.nodes), old(tpg.type2Edges), id, cycle)
      ensures tpg.agents == old(tpg.agents) && SameGrouping(old(tpg.type2Edges), tpg.type2Edges)
      ensures old(tpg.type2Edges[id].isBidirectional) ==> naiveNegativeCase == old(naiveNegativeCase)
      ensures old(tpg.type2Edges[id].isBidirectional) ==> biPairs == old(biPairs)
      ensures biPairs == old(biPairs) ==> tpg.type2Edges == old(tpg.type2Edges) && tpg.nodes == old(tpg.nodes)
      ensures biPairs != old(biPairs) ==>
        && !old(tpg.type2Edges[id].isBidirectional)
        && Committed(old(tpg.nodes), old(tpg.type2Edges), old(biPairs), id, tpg.nodes, tpg.type2Edges, biPairs)
    {
      valid, cycle := false, [];
      if tpg.type2Edges[id].isBidirectional {
        return;
      }
      var accepted;
      ghost var found;
      accepted, found, cycle := CheckSingletonValidity(id);
      valid := accepted;
      if accepted {
        CommitKeepsGrouping(tpg.type2Edges, id, |biPairs|);
        Commit(id);
      }
    }

    /** The upgrade of an accepted candidate (src/BTPG.cpp:186-207), with
        the pair id and the new edge id taken from the current table sizes. */
    method Commit(id: nat)
      requires Valid() && id < |tpg.type2Edges| && !tpg.type2Edges[id].isBidirectional
      requires NodeExists(tpg.nodes, EndNode(tpg.nodes, tpg.type2Edges[id]))
      requires NodeExists(tpg.nodes, StartNode(tpg.nodes, tpg.type2Edges[id]))
      modifies this`biPairs, tpg
      ensures Valid()
      ensures tpg.agents == old(tpg.agents)
      ensures Committed(old(tpg.nodes), old(tpg.type2Edges), old(biPairs), id, tpg.nodes, tpg.type2Edges, biPairs)
    {
      ghost var agents, nodes, edges, pairs := tpg.agents, tpg.nodes, tpg.type2Edges, biPairs;
      var nodes', edges', pairs' := CommitValues(tpg.nodes, tpg.type2Edges, biPairs, id);
      biPairs := pairs';
      tpg.SetGraph(nodes', edges');
      assert Committed(nodes, edges, pairs, id, tpg.nodes, tpg.type2Edges, biPairs);
      assert BtpgOk(tpg.agents, tpg.nodes, tpg.type2Edges, groups, biPairs) by {
        CommitOk(agents, nodes, edges, groups, pairs, id, nodes', edges', pairs');
      }
    }

    /** The body of the upgrade loop for group `g` (src/BTPG.cpp:90-124):
        a group of several edges is passed over; for a singleton group the
        time budget is checked (check number `checks`), and its edge is
        tried unless it is bidirectional already. */
    method TryGroup(g: nat, budget: Budget, checks: nat) returns (added: nat, checksAfter: nat, stopped: bool)
      requires Valid() && g < |groups|
      modifies this`naiveNegativeCase, this`biPairs, tpg
      ensures Valid() && tpg.agents == old(tpg.agents)
      ensures Progress(old(tpg.type2Edges), tpg.type2Edges, groups, added)
      ensures |biPairs| == |old(biPairs)| + added
      ensures |groups[g].type2Edges| > 1 ==> !stopped && added == 0 && checksAfter == checks
      ensures stopped <==> |groups[g].type2Edges| == 1 && Exhausted(budget, checks)
      ensures stopped ==> checksAfter == checks && added == 0
      ensures |groups[g].type2Edges| == 1 && !stopped ==> checksAfter == checks + 1
    {
      added, checksAfter, stopped := 0, checks, false;
      ProgressRefl(tpg.type2Edges, groups);
      var grp := GetType2EdgeGroup(g);
      if |grp.type2Edges| == 1 {
        if Exhausted(budget, checks) {
          stopped := true;
        } else {
          checksAfter := checks + 1;
          added := TrySingleton(g);
        }
      }
    }

    /** A singleton group's edge is tried unless it is bidirectional already;
        `added` is 1 when a pair was created. */
    method TrySingleton(g: nat) returns (added: nat)
      requires Valid() && g < |groups| && |groups[g].type2Edges| == 1
      modifies this`naiveNegativeCase, this`biPairs, tpg
      ensures Valid() && tpg.agents == old(tpg.agents)
      ensures Progress(old(tpg.type2Edges), tpg.type2Edges, groups, added)
      ensures |biPairs| == |old(biPairs)| + added
    {
      added := 0;
      var pairsBefore := GetNumBiPairs();
      var cand := groups[g].type2Edges[0];
      ProgressRefl(tpg.type2Edges, groups);
      if !tpg.type2Edges[cand].isBidirectional {
        ghost var edges0 := tpg.type2Edges;
        ghost var _, _ := CheckSingleton(cand);
        if pairsBefore != GetNumBiPairs() {
          CommitProgress(edges0, groups, g, pairsBefore);
          added := 1;
        }
      }
    }

    /** One pass of the upgrade loop over the group table (src/BTPG.cpp:88-127).
        Budget checks `checks` up to `checksAfter` - 1 all found time left;
        a pass that stops early found check `checksAfter` out of time. */
    method Pass(budget: Budget, checks: nat) returns (added: nat, checksAfter: nat, stopped: bool)
      requires Valid()
      modifies this`naiveNegativeCase, this`biPairs, tpg
      ensures Valid() && tpg.agents == old(tpg.agents)
      ensures Progress(old(tpg.type2Edges), tpg.type2Edges, groups, added)
      ensures |biPairs| == |old(biPairs)| + added
      ensures checks <= checksAfter && (checks < checksAfter ==> !Exhausted(budget, checksAfter - 1))
      ensures stopped ==> Exhausted(budget, checksAfter)
    {
      added, checksAfter, stopped := 0, checks, false;
      ghost var start, pairs0 := tpg.type2Edges, |biPairs|;
      ProgressRefl(start, groups);
      for g := 0 to |groups|
        invariant Valid() && tpg.agents == old(tpg.agents)
        invariant Progress(start, tpg.type2Edges, groups, added)
        invariant |biPairs| == pairs0 + added
        invariant checks <= checksAfter && (checks < checksAfter ==> !Exhausted(budget, checksAfter - 1))
      {
        var more, next, stop := PassGroup(g, budget, checksAfter, start, added);
        added, checksAfter := added + more, next;
        if stop {
          stopped := true;
          return;
        }
      }
    }

    /** One turn of the pass: `TryGroup`, with the progress since the start
        of the pass carried along. */
    method PassGroup(g: nat, budget: Budget, checks: nat, ghost start: seq<Type2Edge>, ghost added: nat)
      returns (more: nat, checksAfter: nat, stopped: bool)
      requires Valid() && g < |groups| && Progress(start, tpg.type2Edges, groups, added)
      modifies this`naiveNegativeCase, this`biPairs, tpg
      ensures Valid() && tpg.agents == old(tpg.agents)
      ensures Progress(start, tpg.type2Edges, groups, added + more)
      ensures |biPairs| == |old(biPairs)| + more
      ensures checks <= checksAfter && (checks < checksAfter ==> !Exhausted(budget, checksAfter - 1))
      ensures stopped ==> Exhausted(budget, checksAfter)
    {
      ghost var before := tpg.type2Edges;
      more, checksAfter, stopped := TryGroup(g, budget, checks);
      ProgressTrans(start, before, tpg.type2Edges, groups, added, more);
    }

    /** The upgrade loop of `BTPG::BTPG` (src/BTPG.cpp:83-133): BTPG-n
        (mode 0) makes exactly one pass; otherwise passes repeat until one
        adds no pair. Running out of time ends the loop at once and leaves
        `finish` unset; it is set only when the loop ends on its own. */
    method Upgrade(budget: Budget) returns (passes: nat, lastAdded: nat)
      requires Valid() && !finish
      modifies this`naiveNegativeCase, this`biPairs, this`finish, tpg
      ensures Valid() && tpg.agents == old(tpg.agents) && |old(biPairs)| <= |biPairs|
      ensures Progress(old(tpg.type2Edges), tpg.type2Edges, groups, |biPairs| - |old(biPairs)|)
      ensures passes >= 1 && (mode == 0 ==> passes == 1)
      ensures finish ==> mode == 0 || lastAdded == 0
      ensures !finish ==> budget.Checks?
      ensures budget == Unlimited ==> finish
    {
      var addMorePairs := 1;
      var checks := 0;
      var stopped := false;
      ghost var start := tpg.type2Edges;
      ProgressRefl(start, groups);
      passes := 0;
      lastAdded := 0;
      while addMorePairs != 0 && !stopped
        invariant Valid() && tpg.agents == old(tpg.agents) && |old(biPairs)| <= |biPairs|
        invariant Progress(start, tpg.type2Edges, groups, |biPairs| - |old(biPairs)|)
        invariant passes == 0 ==> addMorePairs != 0 && !stopped
        invariant mode == 0 ==> passes <= 1 && (passes == 1 ==> addMorePairs == 0)
        invariant passes > 0 && mode != 0 ==> addMorePairs == lastAdded
        invariant stopped ==> budget.Checks?
        decreases PendingCount(tpg.type2Edges, groups, |groups|) + (if addMorePairs != 0 && !stopped then 1 else 0)
      {
        ghost var before, pairsBefore := tpg.type2Edges, |biPairs|;
        var added, checksAfter;
        added, checksAfter, stopped := Pass(budget, checks);
        ProgressTrans(start, before, tpg.type2Edges, groups, pairsBefore - |old(biPairs)|, added);
        passes := passes + 1;
        lastAdded := added;
        checks := checksAfter;
        addMorePairs := if mode == 0 then 0 else added;
      }
      finish := !stopped;
    }

    /** `BTPG::BTPG` (src/BTPG.cpp:8-133): builds the TPG of `paths`, groups
        its edges, then runs the upgrade loop under `budget`. */
    constructor (paths: seq<seq<Coord>>, mode: int, budget: Budget)
      requires CanBuild(paths)
      ensures Valid() && this.mode == mode
      ensures |EdgeTable(ConflictLinks(paths))| <= |tpg.type2Edges|
      ensures forall id | 0 <= id < |EdgeTable(ConflictLinks(paths))| :: tpg.type2Edges[id].isGrouped
      ensures budget == Unlimited ==> finish
    {
      var t := new TPG(paths);
      ConflictEdgesWellFormed(paths);
      ListsMatchOutListed(t.nodes, t.type2Edges);
      var edges, grps := GroupEdges(t.agents, t.nodes, t.type2Edges);
      GroupedStart(t.agents, t.nodes, t.type2Edges, edges, grps);
      t.type2Edges := edges;
      tpg := t;
      this.mode := mode;
      naiveNegativeCase := 0;
      finish := false;
      groups := grps;
      biPairs := [];
      new;
      ghost var grouped := tpg.type2Edges;
      var passes, lastAdded := Upgrade(budget);
      ProgressGrouping(grouped, tpg.type2Edges, groups, |biPairs|);
    }
  }
}
