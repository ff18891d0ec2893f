/** Grouping of Type-2 edges into runs (the first half of `BTPG::BTPG`,
    src/BTPG.cpp:19-71). A run starts at an ungrouped edge and is extended
    node by node along the source robot's chain, each time by the first
    ungrouped edge to the same target robot whose target timestep is one
    more or one less than the previous one. The loops only set the
    `isGrouped` and `groupId` fields of edges; the model threads the edge
    table and the group table through them as values. */
module Grouping {
  import opened Util
  import opened TpgSpec
  import opened Tpg

  /** Every outgoing id names an edge that leaves the listing node, and
      every edge is listed at its source: what construction leaves. */
  predicate OutListed(nodes: seq<seq<Node>>, edges: seq<Type2Edge>)
  {
    && (forall r, t, k | 0 <= r < |nodes| && 0 <= t < |nodes[r]| && 0 <= k < |nodes[r][t].type2Next| ::
          nodes[r][t].type2Next[k] < |edges| && edges[nodes[r][t].type2Next[k]].nodeFrom == At(r, t))
    && (forall id | 0 <= id < |edges| ::
          && NodeExists(nodes, edges[id].nodeFrom)
          && id in nodes[edges[id].nodeFrom.robot][edges[id].nodeFrom.step].type2Next)
  }

  /** What grouping reads: linked chains, edges between existing nodes of
      different robots, and outgoing lists that match the table. */
  predicate GroupInput(nodes: seq<seq<Node>>, edges: seq<Type2Edge>)
  {
    ChainsOk(nodes) && EdgesOk(nodes, edges) && OutListed(nodes, edges)
  }

  /** Lists that hold exactly each node's edge ids satisfy `OutListed`. */
  lemma ListsMatchOutListed(nodes: seq<seq<Node>>, edges: seq<Type2Edge>)
    requires ListsMatch(nodes, edges) && EdgesOk(nodes, edges)
    ensures OutListed(nodes, edges)
  {
    forall r, t | 0 <= r < |nodes| && 0 <= t < |nodes[r]|
      ensures forall k | 0 <= k < |nodes[r][t].type2Next| ::
        nodes[r][t].type2Next[k] < |edges| && edges[nodes[r][t].type2Next[k]].nodeFrom == At(r, t)
    {
      OutIdsExact(edges, At(r, t));
      assert nodes[r][t].type2Next == OutIds(edges, At(r, t));
      assert forall k | 0 <= k < |nodes[r][t].type2Next| :: nodes[r][t].type2Next[k] in OutIds(edges, At(r, t));
    }
    forall id | 0 <= id < |edges|
      ensures id in nodes[edges[id].nodeFrom.robot][edges[id].nodeFrom.step].type2Next
    {
      var n := edges[id].nodeFrom;
      OutIdsExact(edges, n);
      assert nodes[n.robot][n.step].type2Next == OutIds(edges, At(n.robot, n.step));
    }
  }

  /** An edge with its grouping fields cleared: what grouping leaves alone. */
  function Stripped(e: Type2Edge): (s: Type2Edge)
    ensures !s.isGrouped && s.groupId == -1
    ensures s.nodeFrom == e.nodeFrom && s.nodeTo == e.nodeTo && s.edgeId == e.edgeId
    ensures s.biPairId == e.biPairId && s.isBidirectional == e.isBidirectional
  {
    e.(isGrouped := false, groupId := -1)
  }

  /** Edge b continues a run after edge a: it leaves the next node of a's
      source chain, and its target is one timestep before or after a's. */
  predicate Follows(a: Type2Edge, b: Type2Edge)
  {
    && a.nodeFrom.At? && a.nodeTo.At? && b.nodeTo.At?
    && b.nodeFrom == At(a.nodeFrom.robot, a.nodeFrom.step + 1)
    && (b.nodeTo.step == a.nodeTo.step + 1 || b.nodeTo.step + 1 == a.nodeTo.step)
  }

  /** Group g: non-empty, its members are grouped edges that record g, all
      go to robot `toId`, the first leaves robot `fromId`, and each
      member follows the one before it. */
  predicate GroupOk(edges: seq<Type2Edge>, grp: Type2EdgeGroup, g: nat)
  {
    var ids := grp.type2Edges;
    && |ids| >= 1
    && (forall k | 0 <= k < |ids| ::
          && ids[k] < |edges|
          && edges[ids[k]].isGrouped && edges[ids[k]].groupId == g
          && edges[ids[k]].nodeFrom.At? && edges[ids[k]].nodeTo.At?
          && edges[ids[k]].nodeTo.robot == grp.toId)
    && edges[ids[0]].nodeFrom.robot == grp.fromId
    && (forall k | 0 <= k < |ids| - 1 :: Follows(edges[ids[k]], edges[ids[k + 1]]))
  }

  /** Every group is well formed at its index. */
  predicate GroupsOk(edges: seq<Type2Edge>, groups: seq<Type2EdgeGroup>)
  {
    forall g | 0 <= g < |groups| :: GroupOk(edges, groups[g], g)
  }

  /** Every grouped edge is a member of the group its `groupId` names. */
  predicate Members(edges: seq<Type2Edge>, groups: seq<Type2EdgeGroup>)
  {
    forall id | 0 <= id < |edges| && edges[id].isGrouped ::
      0 <= edges[id].groupId < |groups| && id in groups[edges[id].groupId].type2Edges
  }

  /** The edge table changed only in grouping fields, and only by grouping
      edges that were not grouped before. */
  predicate GroupedMore(before: seq<Type2Edge>, after: seq<Type2Edge>)
  {
    && |after| == |before|
    && forall id | 0 <= id < |before| ::
      && Stripped(after[id]) == Stripped(before[id])
      && (before[id].isGrouped ==> after[id] == before[id])
  }

  lemma GroupedMoreTrans(a: seq<Type2Edge>, b: seq<Type2Edge>, c: seq<Type2Edge>)
    requires GroupedMore(a, b) && GroupedMore(b, c)
    ensures GroupedMore(a, c)
  {
  }

  /** Edge e may extend a run to robot `toId` whose last target sits at
      `timeStep` (the test of src/BTPG.cpp:51-53, on the target node's
      recorded robot and timestep). */
  predicate Continues(nodes: seq<seq<Node>>, e: Type2Edge, toId: int, timeStep: int)
  {
    && !e.isGrouped
    && NodeExists(nodes, e.nodeTo)
    && nodes[e.nodeTo.robot][e.nodeTo.step].robotId == toId
    && (nodes[e.nodeTo.robot][e.nodeTo.step].timeStep == timeStep + 1
        || nodes[e.nodeTo.robot][e.nodeTo.step].timeStep == timeStep - 1)
  }

  /** Along the members of a group, source timesteps go up one by one. */
  lemma {:induction false} GroupSteps(edges: seq<Type2Edge>, grp: Type2EdgeGroup, g: nat, i: nat, j: nat)
    requires GroupOk(edges, grp, g) && i <= j < |grp.type2Edges|
    ensures edges[grp.type2Edges[j]].nodeFrom.robot == edges[grp.type2Edges[i]].nodeFrom.robot
    ensures edges[grp.type2Edges[j]].nodeFrom.step == edges[grp.type2Edges[i]].nodeFrom.step + (j - i)
    decreases j
  {
    if i < j {
      GroupSteps(edges, grp, g, i, j - 1);
      assert Follows(edges[grp.type2Edges[j - 1]], edges[grp.type2Edges[j]]);
    }
  }

  /** A group never lists an edge twice, and all members leave the same robot. */
  lemma GroupDistinct(edges: seq<Type2Edge>, grp: Type2EdgeGroup, g: nat)
    requires GroupOk(edges, grp, g)
    ensures forall i, j | 0 <= i < j < |grp.type2Edges| :: grp.type2Edges[i] != grp.type2Edges[j]
    ensures forall k | 0 <= k < |grp.type2Edges| :: edges[grp.type2Edges[k]].nodeFrom.robot == grp.fromId
  {
    forall i, j | 0 <= i < j < |grp.type2Edges|
      ensures grp.type2Edges[i] != grp.type2Edges[j]
    {
      GroupSteps(edges, grp, g, i, j);
    }
    forall k | 0 <= k < |grp.type2Edges|
      ensures edges[grp.type2Edges[k]].nodeFrom.robot == grp.fromId
    {
      GroupSteps(edges, grp, g, 0, k);
    }
  }

  /** With every edge grouped, each edge belongs to exactly one group: the
      one its `groupId` names. */
  lemma ExactlyOneGroup(edges: seq<Type2Edge>, groups: seq<Type2EdgeGroup>, id: nat)
    requires GroupsOk(edges, groups) && Members(edges, groups)
    requires id < |edges| && edges[id].isGrouped
    ensures forall g | 0 <= g < |groups| :: id in groups[g].type2Edges <==> g == edges[id].groupId
  {
    forall g | 0 <= g < |groups| && id in groups[g].type2Edges
      ensures g == edges[id].groupId
    {
      assert GroupOk(edges, groups[g], g);
      var k :| 0 <= k < |groups[g].type2Edges| && groups[g].type2Edges[k] == id;
    }
  }

  /** The first edge listed at `from` that can extend the run, as a position
      in `from`'s outgoing list, or the list length when there is none
      (src/BTPG.cpp:47-59). */
  method FindNext(nodes: seq<seq<Node>>, edges: seq<Type2Edge>, from: NodeRef, toId: int, timeStep: int)
    returns (k: nat)
    requires NodeExists(nodes, from) && GroupInput(nodes, edges)
    ensures k <= |nodes[from.robot][from.step].type2Next|
    ensures forall j | 0 <= j < k ::
      !Continues(nodes, edges[nodes[from.robot][from.step].type2Next[j]], toId, timeStep)
    ensures k < |nodes[from.robot][from.step].type2Next| ==>
      Continues(nodes, edges[nodes[from.robot][from.step].type2Next[k]], toId, timeStep)
  {
    var ids := nodes[from.robot][from.step].type2Next;
    k := 0;
    while k < |ids|
      invariant k <= |ids|
      invariant forall j | 0 <= j < k :: !Continues(nodes, edges[ids[j]], toId, timeStep)
    {
      var e := edges[ids[k]];
      if !e.isGrouped {
        var target := nodes[e.nodeTo.robot][e.nodeTo.step];
        if target.robotId == toId && (target.timeStep == timeStep + 1 || target.timeStep == timeStep - 1) {
          return;
        }
      }
      k := k + 1;
    }
  }

  /** The table with edge `id` grouped into group g (src/BTPG.cpp:40-41, 56-57). */
  function Mark(edges: seq<Type2Edge>, id: nat, g: nat): (res: seq<Type2Edge>)
    requires id < |edges|
    ensures |res| == |edges| && res[id].isGrouped && res[id].groupId == g
    ensures Stripped(res[id]) == Stripped(edges[id])
    ensures forall j | 0 <= j < |edges| && j != id :: res[j] == edges[j]
  {
    edges[id := edges[id].(isGrouped := true, groupId := g)]
  }

  /** Grouping only changes grouping fields, so it keeps the input shape. */
  lemma GroupInputKept(nodes: seq<seq<Node>>, a: seq<Type2Edge>, b: seq<Type2Edge>)
    requires GroupInput(nodes, a) && GroupedMore(a, b)
    ensures GroupInput(nodes, b)
  {
    assert forall id | 0 <= id < |a| :: b[id].nodeFrom == Stripped(b[id]).nodeFrom == a[id].nodeFrom;
    assert forall id | 0 <= id < |a| :: b[id].nodeTo == Stripped(b[id]).nodeTo == a[id].nodeTo;
    assert forall id | 0 <= id < |a| :: b[id].edgeId == Stripped(b[id]).edgeId == a[id].edgeId;
  }

  /** Opening group `|groups|` with an ungrouped edge keeps the tables consistent. */
  lemma OpenGroup(edges: seq<Type2Edge>, groups: seq<Type2EdgeGroup>, id: nat, grp: Type2EdgeGroup)
    requires GroupsOk(edges, groups) && Members(edges, groups)
    requires id < |edges| && !edges[id].isGrouped
    requires edges[id].nodeFrom.At? && edges[id].nodeTo.At?
    requires grp.type2Edges == [id] && grp.fromId == edges[id].nodeFrom.robot && grp.toId == edges[id].nodeTo.robot
    ensures var res := Mark(edges, id, |groups|);
      GroupsOk(res, groups + [grp]) && Members(res, groups + [grp]) && GroupedMore(edges, res)
  {
    var res := Mark(edges, id, |groups|);
    var all := groups + [grp];
    forall g | 0 <= g < |all| ensures GroupOk(res, all[g], g) {
      if g < |groups| {
        assert GroupOk(edges, groups[g], g);
        assert forall k | 0 <= k < |groups[g].type2Edges| :: groups[g].type2Edges[k] != id;
      }
    }
    forall j | 0 <= j < |res| && res[j].isGrouped
      ensures 0 <= res[j].groupId < |all| && j in all[res[j].groupId].type2Edges
    {
      if j != id {
        assert j in groups[edges[j].groupId].type2Edges;
      }
    }
  }

  /** Appending an ungrouped edge that follows the last member of the
      pending group keeps the tables consistent. */
  lemma AddMember(edges: seq<Type2Edge>, groups: seq<Type2EdgeGroup>, grp: Type2EdgeGroup, id: nat)
    requires GroupsOk(edges, groups + [grp]) && Members(edges, groups + [grp])
    requires id < |edges| && !edges[id].isGrouped
    requires |grp.type2Edges| >= 1 && grp.type2Edges[|grp.type2Edges| - 1] < |edges|
    requires Follows(edges[grp.type2Edges[|grp.type2Edges| - 1]], edges[id])
    requires edges[id].nodeTo.robot == grp.toId
    ensures var res := Mark(edges, id, |groups|);
      var grp' := grp.(type2Edges := grp.type2Edges + [id]);
      GroupsOk(res, groups + [grp']) && Members(res, groups + [grp']) && GroupedMore(edges, res)
  {
    var res := Mark(edges, id, |groups|);
    var grp' := grp.(type2Edges := grp.type2Edges + [id]);
    var all := groups + [grp];
    var all' := groups + [grp'];
    assert GroupOk(edges, all[|groups|], |groups|);
    forall g | 0 <= g < |all'| ensures GroupOk(res, all'[g], g) {
      assert GroupOk(edges, all[g], g);
      assert forall k | 0 <= k < |all[g].type2Edges| :: all[g].type2Edges[k] != id;
      if g == |groups| {
        var ids := grp'.type2Edges;
        forall k | 0 <= k < |ids| - 1 ensures Follows(res[ids[k]], res[ids[k + 1]]) {
          if k < |ids| - 2 {
            assert Follows(edges[grp.type2Edges[k]], edges[grp.type2Edges[k + 1]]);
          }
        }
      }
    }
    forall j | 0 <= j < |res| && res[j].isGrouped
      ensures 0 <= res[j].groupId < |all'| && j in all'[res[j].groupId].type2Edges
    {
      if j != id {
        assert j in all[edges[j].groupId].type2Edges;
      }
    }
  }

  /** The last member of a non-empty group. */
  function LastId(grp: Type2EdgeGroup): nat
    requires |grp.type2Edges| >= 1
  {
    grp.type2Edges[|grp.type2Edges| - 1]
  }

  /** No ungrouped edge of the table can extend the group any further. */
  predicate Maximal(edges: seq<Type2Edge>, grp: Type2EdgeGroup)
    requires |grp.type2Edges| >= 1 && LastId(grp) < |edges|
  {
    forall j | 0 <= j < |edges| && !edges[j].isGrouped ::
      !(Follows(edges[LastId(grp)], edges[j]) && edges[j].nodeTo.robot == grp.toId)
  }

  /** Every group is maximal in the table. */
  predicate AllMaximal(edges: seq<Type2Edge>, groups: seq<Type2EdgeGroup>)
  {
    forall g | 0 <= g < |groups| && |groups[g].type2Edges| >= 1 && LastId(groups[g]) < |edges| ::
      Maximal(edges, groups[g])
  }

  /** No member of group `later` could have extended group `earlier`. */
  predicate Unextended(edges: seq<Type2Edge>, earlier: Type2EdgeGroup, later: Type2EdgeGroup)
  {
    |earlier.type2Edges| >= 1 && LastId(earlier) < |edges| ==>
      forall k | 0 <= k < |later.type2Edges| && later.type2Edges[k] < |edges| ::
        !(Follows(edges[LastId(earlier)], edges[later.type2Edges[k]])
          && edges[later.type2Edges[k]].nodeTo.robot == earlier.toId)
  }

  /** No member of a later group could have extended an earlier one: each
      group was closed while every later member was still ungrouped. */
  predicate Greedy(edges: seq<Type2Edge>, groups: seq<Type2EdgeGroup>)
  {
    forall g1, g2 | 0 <= g1 < g2 < |groups| :: Unextended(edges, groups[g1], groups[g2])
  }

  /** Grouping changes no endpoint, so it keeps which edges follow which. */
  lemma SameEnds(edges: seq<Type2Edge>, res: seq<Type2Edge>)
    requires GroupedMore(edges, res)
    ensures forall id | 0 <= id < |edges| :: res[id].nodeFrom == edges[id].nodeFrom && res[id].nodeTo == edges[id].nodeTo
  {
    assert forall id | 0 <= id < |edges| :: res[id].nodeFrom == Stripped(res[id]).nodeFrom == edges[id].nodeFrom;
    assert forall id | 0 <= id < |edges| :: res[id].nodeTo == Stripped(res[id]).nodeTo == edges[id].nodeTo;
  }

  /** Closing a maximal group keeps every group maximal: an edge ungrouped
      afterwards was ungrouped before. */
  lemma MaximalKept(edges: seq<Type2Edge>, res: seq<Type2Edge>, groups: seq<Type2EdgeGroup>, grp: Type2EdgeGroup)
    requires AllMaximal(edges, groups) && GroupedMore(edges, res)
    requires |grp.type2Edges| >= 1 && LastId(grp) < |res| && Maximal(res, grp)
    ensures AllMaximal(res, groups + [grp])
  {
    SameEnds(edges, res);
    var all := groups + [grp];
    forall g | 0 <= g < |all| && |all[g].type2Edges| >= 1 && LastId(all[g]) < |res|
      ensures Maximal(res, all[g])
    {
      if g < |groups| {
        assert Maximal(edges, groups[g]);
      }
    }
  }

  /** Closing a maximal group keeps the groups greedy: its members were
      ungrouped while the earlier groups were maximal. */
  lemma GreedyKept(edges: seq<Type2Edge>, res: seq<Type2Edge>, groups: seq<Type2EdgeGroup>, grp: Type2EdgeGroup)
    requires Members(edges, groups) && Greedy(edges, groups) && AllMaximal(edges, groups)
    requires GroupedMore(edges, res) && GroupOk(res, grp, |groups|)
    ensures Greedy(res, groups + [grp])
  {
    SameEnds(edges, res);
    var all := groups + [grp];
    forall g1, g2 | 0 <= g1 < g2 < |all|
      ensures Unextended(res, all[g1], all[g2])
    {
      if g2 == |groups| {
        if |groups[g1].type2Edges| >= 1 && LastId(groups[g1]) < |edges| {
          assert Maximal(edges, groups[g1]);
        }
        forall k | 0 <= k < |grp.type2Edges|
          ensures !edges[grp.type2Edges[k]].isGrouped
        {
        }
      } else {
        assert Unextended(edges, groups[g1], groups[g2]);
      }
    }
  }

  /** The extension loop stands at `fromNode`, the chain successor of the
      last member's source, with `timeStep` the last member's target timestep. */
  predicate Tip(nodes: seq<seq<Node>>, edges: seq<Type2Edge>, grp: Type2EdgeGroup, fromNode: NodeRef, timeStep: int)
  {
    && |grp.type2Edges| >= 1 && LastId(grp) < |edges|
    && NodeExists(nodes, edges[LastId(grp)].nodeFrom)
    && edges[LastId(grp)].nodeTo.At?
    && fromNode == nodes[edges[LastId(grp)].nodeFrom.robot][edges[LastId(grp)].nodeFrom.step].type1Next
    && timeStep == edges[LastId(grp)].nodeTo.step
  }

  /** When the successor node lists no edge that continues the group (or
      there is no successor), the group is maximal. */
  lemma TipMaximal(nodes: seq<seq<Node>>, edges: seq<Type2Edge>, grp: Type2EdgeGroup, fromNode: NodeRef, timeStep: int)
    requires GroupInput(nodes, edges) && Tip(nodes, edges, grp, fromNode, timeStep)
    requires fromNode.At? ==>
      && NodeExists(nodes, fromNode)
      && forall k | 0 <= k < |nodes[fromNode.robot][fromNode.step].type2Next| ::
           !Continues(nodes, edges[nodes[fromNode.robot][fromNode.step].type2Next[k]], grp.toId, timeStep)
    ensures Maximal(edges, grp)
  {
    forall j | 0 <= j < |edges| && !edges[j].isGrouped
      ensures !(Follows(edges[LastId(grp)], edges[j]) && edges[j].nodeTo.robot == grp.toId)
    {
      var n := edges[j].nodeFrom;
      assert j in nodes[n.robot][n.step].type2Next;
    }
  }

  /** An edge listed at the loop's node that passes the test follows the
      group's last member, and the walk moves one step down the chain. */
  lemma ContinuesFollows(nodes: seq<seq<Node>>, edges: seq<Type2Edge>, grp: Type2EdgeGroup,
                         fromNode: NodeRef, timeStep: int, k: nat)
    requires GroupInput(nodes, edges) && Tip(nodes, edges, grp, fromNode, timeStep) && fromNode.At?
    requires k < |nodes[fromNode.robot][fromNode.step].type2Next|
    requires Continues(nodes, edges[nodes[fromNode.robot][fromNode.step].type2Next[k]], grp.toId, timeStep)
    ensures var next := nodes[fromNode.robot][fromNode.step].type2Next[k];
      && next < |edges| && !edges[next].isGrouped
      && Follows(edges[LastId(grp)], edges[next]) && edges[next].nodeTo.robot == grp.toId
    ensures var after := nodes[fromNode.robot][fromNode.step].type1Next;
      after == Null || (after.robot == fromNode.robot && after.step == fromNode.step + 1 && after.step < |nodes[after.robot]|)
  {
    var last := edges[LastId(grp)];
    assert fromNode == At(last.nodeFrom.robot, last.nodeFrom.step + 1);
    var next := nodes[fromNode.robot][fromNode.step].type2Next[k];
    assert edges[next].nodeFrom == fromNode;
  }

  /** The state the extension loop keeps: only grouping fields changed, the
      seed edge is grouped, and the tables are consistent with the pending
      group at index `|groups|`. */
  predicate Growing(nodes: seq<seq<Node>>, edges: seq<Type2Edge>, res: seq<Type2Edge>,
                    groups: seq<Type2EdgeGroup>, grp: Type2EdgeGroup, id: nat)
  {
    && GroupedMore(edges, res) && GroupInput(nodes, res)
    && id < |res| && res[id].isGrouped
    && GroupsOk(res, groups + [grp]) && Members(res, groups + [grp])
    && |grp.type2Edges| >= 1 && grp.type2Edges[0] == id && grp.groupId == -1
  }

  /** Opens group `|groups|` at the ungrouped edge `id` leaving `node` and
      extends it along the source chain while the next node lists an edge
      that continues it (src/BTPG.cpp:33-65). The finished group cannot be
      extended by any ungrouped edge of the table. */
  method StartGroup(nodes: seq<seq<Node>>, edges: seq<Type2Edge>, groups: seq<Type2EdgeGroup>, node: NodeRef, id: nat)
    returns (res: seq<Type2Edge>, grp: Type2EdgeGroup)
    requires GroupInput(nodes, edges) && GroupsOk(edges, groups) && Members(edges, groups)
    requires id < |edges| && edges[id].nodeFrom == node && !edges[id].isGrouped
    ensures Growing(nodes, edges, res, groups, grp, id)
    ensures LastId(grp) < |res| && Maximal(res, grp)
  {
    var g := |groups|;
    var e := edges[id];
    var toId := nodes[e.nodeTo.robot][e.nodeTo.step].robotId;
    var timeStep := nodes[e.nodeTo.robot][e.nodeTo.step].timeStep;
    var fromNode := node;
    grp := DefaultGroup();
    grp := grp.(fromId := nodes[fromNode.robot][fromNode.step].robotId);
    fromNode := nodes[fromNode.robot][fromNode.step].type1Next;
    grp := grp.(type2Edges := grp.type2Edges + [id], toId := toId);
    OpenGroup(edges, groups, id, grp);
    res := Mark(edges, id, g);
    GroupInputKept(nodes, edges, res);
    while fromNode != Null
      invariant Growing(nodes, edges, res, groups, grp, id) && grp.toId == toId
      invariant Tip(nodes, res, grp, fromNode, timeStep)
      decreases if fromNode.At? && fromNode.robot < |nodes| then |nodes[fromNode.robot]| - fromNode.step else 0
    {
      var k := FindNext(nodes, res, fromNode, toId, timeStep);
      var ids := nodes[fromNode.robot][fromNode.step].type2Next;
      if k == |ids| {
        TipMaximal(nodes, res, grp, fromNode, timeStep);
        return;
      }
      var next := ids[k];
      ContinuesFollows(nodes, res, grp, fromNode, timeStep, k);
      AddMember(res, groups, grp, next);
      grp := grp.(type2Edges := grp.type2Edges + [next]);
      var prev := res;
      res := Mark(res, next, g);
      GroupedMoreTrans(edges, prev, res);
      GroupInputKept(nodes, prev, res);
      timeStep := nodes[res[next].nodeTo.robot][res[next].nodeTo.step].timeStep;
      fromNode := nodes[fromNode.robot][fromNode.step].type1Next;
    }
    TipMaximal(nodes, res, grp, fromNode, timeStep);
  }

  /** The group table so far: well formed, consistent with the edge
      table, every group maximal, and none extensible by a later member. */
  predicate Tables(edges: seq<Type2Edge>, groups: seq<Type2EdgeGroup>)
  {
    GroupsOk(edges, groups) && Members(edges, groups) && Greedy(edges, groups) && AllMaximal(edges, groups)
  }

  /** Groups every still ungrouped edge listed at `node`, in list order,
      each as the seed of a new group (src/BTPG.cpp:27-66). */
  method GroupNode(nodes: seq<seq<Node>>, edges: seq<Type2Edge>, groups: seq<Type2EdgeGroup>, node: NodeRef)
    returns (res: seq<Type2Edge>, groups': seq<Type2EdgeGroup>)
    requires GroupInput(nodes, edges) && Tables(edges, groups) && NodeExists(nodes, node)
    ensures GroupedMore(edges, res) && GroupInput(nodes, res) && Tables(res, groups')
    ensures |groups| <= |groups'| && groups'[..|groups|] == groups
    ensures forall k | 0 <= k < |nodes[node.robot][node.step].type2Next| ::
      res[nodes[node.robot][node.step].type2Next[k]].isGrouped
  {
    var ids := nodes[node.robot][node.step].type2Next;
    res := edges;
    groups' := groups;
    for k := 0 to |ids|
      invariant GroupedMore(edges, res)
      invariant Tables(res, groups')
      invariant |groups| <= |groups'| && groups'[..|groups|] == groups
      invariant forall j | 0 <= j < k :: ids[j] < |res| && res[ids[j]].isGrouped
    {
      var prev := res;
      GroupInputKept(nodes, edges, prev);
      res, groups' := GroupListed(nodes, prev, groups', node, ids[k]);
      GroupedMoreTrans(edges, prev, res);
    }
    GroupInputKept(nodes, edges, res);
  }

  /** One turn of the loop over a node's edges: an edge already grouped is
      passed over, any other one seeds a new group (src/BTPG.cpp:30-65). */
  method GroupListed(nodes: seq<seq<Node>>, edges: seq<Type2Edge>, groups: seq<Type2EdgeGroup>, node: NodeRef, id: nat)
    returns (res: seq<Type2Edge>, groups': seq<Type2EdgeGroup>)
    requires GroupInput(nodes, edges) && Tables(edges, groups)
    requires id < |edges| && edges[id].nodeFrom == node
    ensures GroupedMore(edges, res) && Tables(res, groups') && res[id].isGrouped
    ensures forall j | 0 <= j < |edges| && edges[j].isGrouped :: res[j].isGrouped
    ensures |groups| <= |groups'| && groups'[..|groups|] == groups
  {
    if edges[id].isGrouped {
      return edges, groups;
    }
    res, groups' := CloseGroup(nodes, edges, groups, node, id);
  }

  /** Opens a group at the ungrouped edge `id`, extends it as far as it
      goes and appends it to the group table (src/BTPG.cpp:33-66). */
  method CloseGroup(nodes: seq<seq<Node>>, edges: seq<Type2Edge>, groups: seq<Type2EdgeGroup>, node: NodeRef, id: nat)
    returns (res: seq<Type2Edge>, groups': seq<Type2EdgeGroup>)
    requires GroupInput(nodes, edges) && Tables(edges, groups)
    requires id < |edges| && edges[id].nodeFrom == node && !edges[id].isGrouped
    ensures GroupedMore(edges, res) && GroupInput(nodes, res) && res[id].isGrouped
    ensures forall j | 0 <= j < |edges| && edges[j].isGrouped :: res[j].isGrouped
    ensures Tables(res, groups')
    ensures |groups'| == |groups| + 1 && groups'[..|groups|] == groups
  {
    var grp;
    res, grp := StartGroup(nodes, edges, groups, node, id);
    assert GroupOk(res, (groups + [grp])[|groups|], |groups|);
    GreedyKept(edges, res, groups, grp);
    MaximalKept(edges, res, groups, grp);
    groups' := groups + [grp];
  }

  /** Every listed edge of the robots before `robot`, and of robot `robot`'s
      nodes before `step`, is grouped. */
  predicate Covered(nodes: seq<seq<Node>>, edges: seq<Type2Edge>, robot: nat, step: nat)
  {
    forall r, t, k | 0 <= r < |nodes| && 0 <= t < |nodes[r]| && (r < robot || (r == robot && t < step))
                     && 0 <= k < |nodes[r][t].type2Next| ::
      nodes[r][t].type2Next[k] < |edges| && edges[nodes[r][t].type2Next[k]].isGrouped
  }

  lemma CoveredKept(nodes: seq<seq<Node>>, a: seq<Type2Edge>, b: seq<Type2Edge>, robot: nat, step: nat)
    requires Covered(nodes, a, robot, step) && GroupedMore(a, b)
    ensures Covered(nodes, b, robot, step)
  {
  }

  lemma CoveredStep(nodes: seq<seq<Node>>, edges: seq<Type2Edge>, robot: nat, step: nat)
    requires Covered(nodes, edges, robot, step) && robot < |nodes| && step < |nodes[robot]|
    requires forall k | 0 <= k < |nodes[robot][step].type2Next| ::
      nodes[robot][step].type2Next[k] < |edges| && edges[nodes[robot][step].type2Next[k]].isGrouped
    ensures Covered(nodes, edges, robot, step + 1)
  {
  }

  lemma CoveredRow(nodes: seq<seq<Node>>, edges: seq<Type2Edge>, robot: nat)
    requires robot < |nodes| && Covered(nodes, edges, robot, |nodes[robot]|)
    ensures Covered(nodes, edges, robot + 1, 0)
  {
  }

  /** The grouping pass of `BTPG::BTPG` (src/BTPG.cpp:19-71): walks every
      robot's chain from its head and groups the edges listed at each node.
      Afterwards every edge is grouped and is a member of the group its
      `groupId` names, the groups are well formed, and nothing but the
      grouping fields changed. */
  method GroupEdges(agents: seq<Agent>, nodes: seq<seq<Node>>, edges: seq<Type2Edge>)
    returns (res: seq<Type2Edge>, groups: seq<Type2EdgeGroup>)
    requires AgentsOk(agents, nodes) && GroupInput(nodes, edges)
    requires forall id | 0 <= id < |edges| :: !edges[id].isGrouped
    ensures |res| == |edges| && forall id | 0 <= id < |edges| :: Stripped(res[id]) == Stripped(edges[id])
    ensures GroupsOk(res, groups) && Members(res, groups)
    ensures forall id | 0 <= id < |res| :: res[id].isGrouped
    ensures Greedy(res, groups)
  {
    res := edges;
    groups := [];
    for i := 0 to |agents|
      invariant GroupedMore(edges, res) && GroupInput(nodes, res)
      invariant Tables(res, groups)
      invariant Covered(nodes, res, i, 0)
    {
      var node := agents[i].type1Next;
      while node != Null
        invariant GroupedMore(edges, res) && GroupInput(nodes, res)
        invariant Tables(res, groups)
        invariant node == Null || (node.robot == i && node.step < |nodes[i]|)
        invariant Covered(nodes, res, i, if node.At? then node.step else |nodes[i]|)
        decreases if node.At? then |nodes[i]| - node.step else 0
      {
        var prev := res;
        res, groups := GroupNode(nodes, prev, groups, node);
        GroupedMoreTrans(edges, prev, res);
        CoveredKept(nodes, prev, res, i, node.step);
        CoveredStep(nodes, res, i, node.step);
        node := nodes[node.robot][node.step].type1Next;
      }
      CoveredRow(nodes, res, i);
    }
    forall id | 0 <= id < |res|
      ensures res[id].isGrouped
    {
      var n := res[id].nodeFrom;
      var k :| 0 <= k < |nodes[n.robot][n.step].type2Next| && nodes[n.robot][n.step].type2Next[k] == id;
    }
  }
}
