/** The pure side of the Bidirectional TPG (src/BTPG.cpp): the invariants
    a BTPG keeps, the values one committed upgrade produces, and the
    measure that makes the upgrade loop finish. */
module BtpgSpec {
  import opened Util
  import opened TpgSpec
  import opened Tpg
  import opened Grouping
  import opened Search

  /** Every edge joins two nodes that each have a predecessor: construction
      only creates edges from node t+1 to a node later than t, and a
      committed reverse edge swaps the two ends of such an edge. */
  predicate LateEdges(edges: seq<Type2Edge>)
  {
    forall id | 0 <= id < |edges| ::
      && edges[id].nodeFrom.At? && edges[id].nodeFrom.step >= 1
      && edges[id].nodeTo.At? && edges[id].nodeTo.step >= 1
  }

  /** Pair i links an upgraded edge and its reverse: both are bidirectional
      and record i, and the reverse swaps the original's endpoints. */
  predicate PairOk(edges: seq<Type2Edge>, p: BiPair, i: nat)
  {
    && p.id == i && !p.isVisited
    && 0 <= p.originalId < |edges| && 0 <= p.flippedId < |edges| && p.originalId != p.flippedId
    && edges[p.originalId].isBidirectional && edges[p.originalId].biPairId == i
    && edges[p.flippedId].isBidirectional && edges[p.flippedId].biPairId == i
    && edges[p.flippedId].nodeFrom == edges[p.originalId].nodeTo
    && edges[p.flippedId].nodeTo == edges[p.originalId].nodeFrom
  }

  /** The pair table and the edges agree: every pair is well formed, and an
      edge is bidirectional exactly when it belongs to the pair it records
      (otherwise it records no pair). */
  predicate PairsOk(edges: seq<Type2Edge>, pairs: seq<BiPair>)
  {
    && (forall i | 0 <= i < |pairs| :: PairOk(edges, pairs[i], i))
    && forall id | 0 <= id < |edges| ::
      if edges[id].isBidirectional then
        0 <= edges[id].biPairId < |pairs|
        && (pairs[edges[id].biPairId].originalId == id || pairs[edges[id].biPairId].flippedId == id)
      else edges[id].biPairId == -1
  }

  /** The table before an upgrade changed only in Type-2 fields other than
      grouping and endpoints, and possibly grew: groups stay valid. */
  predicate SameGrouping(a: seq<Type2Edge>, b: seq<Type2Edge>)
  {
    && |a| <= |b|
    && forall id | 0 <= id < |a| ::
      && b[id].isGrouped == a[id].isGrouped && b[id].groupId == a[id].groupId
      && b[id].nodeFrom == a[id].nodeFrom && b[id].nodeTo == a[id].nodeTo
  }

  lemma GroupsKept(a: seq<Type2Edge>, b: seq<Type2Edge>, groups: seq<Type2EdgeGroup>)
    requires GroupsOk(a, groups) && SameGrouping(a, b)
    ensures GroupsOk(b, groups)
  {
    forall g | 0 <= g < |groups| ensures GroupOk(b, groups[g], g) {
      assert GroupOk(a, groups[g], g);
      var ids := groups[g].type2Edges;
      assert forall k | 0 <= k < |ids| - 1 :: Follows(a[ids[k]], a[ids[k + 1]]);
    }
  }

  /** The node the probe starts from: the predecessor of the candidate's source. */
  function StartNode(nodes: seq<seq<Node>>, c: Type2Edge): NodeRef
    requires NodeExists(nodes, c.nodeFrom)
  {
    nodes[c.nodeFrom.robot][c.nodeFrom.step].type1Prev
  }

  /** The node the probe must not reach: the successor of the candidate's target. */
  function EndNode(nodes: seq<seq<Node>>, c: Type2Edge): NodeRef
    requires NodeExists(nodes, c.nodeTo)
  {
    nodes[c.nodeTo.robot][c.nodeTo.step].type1Next
  }

  /** The early rejection of src/BTPG.cpp:218-225: the target is its robot's
      last node, or the source's predecessor is its robot's first node. */
  predicate NaiveReject(nodes: seq<seq<Node>>, c: Type2Edge)
    requires NodeExists(nodes, c.nodeFrom) && NodeExists(nodes, c.nodeTo)
  {
    || EndNode(nodes, c) == Null
    || (NodeExists(nodes, StartNode(nodes, c))
        && nodes[StartNode(nodes, c).robot][StartNode(nodes, c).step].timeStep == 0)
  }

  /** What a rejecting probe found: a walk along Type-1 and Type-2 edges
      from the node before candidate `id`'s source to the node after its
      target, which the reverse edge would close into a cycle. */
  predicate ClosesCycle(nodes: seq<seq<Node>>, edges: seq<Type2Edge>, id: nat, cycle: seq<NodeRef>)
    requires id < |edges| && NodeExists(nodes, edges[id].nodeFrom) && NodeExists(nodes, edges[id].nodeTo)
  {
    && Walk(nodes, edges, cycle)
    && cycle[0] == StartNode(nodes, edges[id])
    && cycle[|cycle| - 1] == EndNode(nodes, edges[id])
  }

  /** On linked chains, the early rejection happens exactly when the target
      ends its robot's path or the source is its robot's second node. */
  lemma NaiveRejectIff(nodes: seq<seq<Node>>, c: Type2Edge)
    requires ChainsOk(nodes) && NodeExists(nodes, c.nodeFrom) && NodeExists(nodes, c.nodeTo)
    requires c.nodeFrom.step >= 1
    ensures NaiveReject(nodes, c) <==> c.nodeTo.step + 1 == |nodes[c.nodeTo.robot]| || c.nodeFrom.step == 1
  {
  }

  /** The committed reverse edge of candidate c (src/BTPG.cpp:189-194, 206):
      it records c's target as its source and c's source as its target. */
  function Reverse(c: Type2Edge, id: nat, pair: nat): Type2Edge
  {
    DefaultType2Edge().(nodeFrom := c.nodeTo, nodeTo := c.nodeFrom, edgeId := id,
                        isBidirectional := true, biPairId := pair)
  }

  /** The edge table after committing candidate `id` as pair `pair`. */
  function CommitEdges(edges: seq<Type2Edge>, id: nat, pair: nat): seq<Type2Edge>
    requires id < |edges|
  {
    edges[id := edges[id].(isBidirectional := true, biPairId := pair)] + [Reverse(edges[id], |edges|, pair)]
  }

  /** Committing a candidate that is not bidirectional yet keeps the pair
      table consistent with the edges. */
  lemma CommitPairsOk(edges: seq<Type2Edge>, pairs: seq<BiPair>, id: nat)
    requires PairsOk(edges, pairs) && id < |edges| && !edges[id].isBidirectional
    ensures PairsOk(CommitEdges(edges, id, |pairs|), pairs + [NewBiPair(|pairs|, id, |edges|)])
  {
    var e' := CommitEdges(edges, id, |pairs|);
    var p' := pairs + [NewBiPair(|pairs|, id, |edges|)];
    forall i | 0 <= i < |p'| ensures PairOk(e', p'[i], i) {
      if i < |pairs| {
        assert PairOk(edges, pairs[i], i);
        assert pairs[i].originalId != id && pairs[i].flippedId != id;
      }
    }
    forall j | 0 <= j < |e'|
      ensures if e'[j].isBidirectional then
        0 <= e'[j].biPairId < |p'| && (p'[e'[j].biPairId].originalId == j || p'[e'[j].biPairId].flippedId == j)
      else e'[j].biPairId == -1
    {
      if j < |edges| && j != id && edges[j].isBidirectional {
        assert p'[e'[j].biPairId] == pairs[edges[j].biPairId];
      }
    }
  }

  /** The committed reverse edge is listed at the successor of the node it
      records as its source and at the predecessor of the node it records as
      its target (src/BTPG.cpp:191-199): unlike a constructed edge, it is not
      in the outgoing list of its own `nodeFrom`. */
  lemma ReverseListing(nodes: seq<seq<Node>>, edges: seq<Type2Edge>, id: nat, pair: nat)
    requires ChainsOk(nodes) && EdgesOk(nodes, edges) && id < |edges|
    requires EndNode(nodes, edges[id]) != Null && StartNode(nodes, edges[id]) != Null
    ensures var e' := CommitEdges(edges, id, pair);
      var n := |edges|;
      var nodes' := PushIn(PushOut(nodes, EndNode(nodes, edges[id]), n), StartNode(nodes, edges[id]), n);
      && e'[n].nodeFrom == edges[id].nodeTo && e'[n].nodeTo == edges[id].nodeFrom
      && n in nodes'[EndNode(nodes, edges[id]).robot][EndNode(nodes, edges[id]).step].type2Next
      && e'[n].nodeFrom != EndNode(nodes, edges[id])
      && n in nodes'[StartNode(nodes, edges[id]).robot][StartNode(nodes, edges[id]).step].type2Prev
      && e'[n].nodeTo != StartNode(nodes, edges[id])
  {
    var c := edges[id];
    var en := EndNode(nodes, c);
    var sn := StartNode(nodes, c);
    var afterOut: seq<seq<Node>> := PushOut(nodes, en, |edges|);
    assert afterOut[en.robot][en.step].type2Next == nodes[en.robot][en.step].type2Next + [|edges|];
    assert PushIn(afterOut, sn, |edges|)[sn.robot][sn.step].type2Prev == afterOut[sn.robot][sn.step].type2Prev + [|edges|];
  }

  /** The whole graph after committing candidate `id` (src/BTPG.cpp:186-207). */
  predicate Committed(nodes: seq<seq<Node>>, edges: seq<Type2Edge>, pairs: seq<BiPair>, id: nat,
                      nodes': seq<seq<Node>>, edges': seq<Type2Edge>, pairs': seq<BiPair>)
    requires id < |edges| && NodeExists(nodes, edges[id].nodeFrom) && NodeExists(nodes, edges[id].nodeTo)
  {
    && NodeExists(nodes, EndNode(nodes, edges[id])) && NodeExists(nodes, StartNode(nodes, edges[id]))
    && edges' == CommitEdges(edges, id, |pairs|)
    && pairs' == pairs + [NewBiPair(|pairs|, id, |edges|)]
    && nodes' == PushIn(PushOut(nodes, EndNode(nodes, edges[id]), |edges|), StartNode(nodes, edges[id]), |edges|)
  }

  /** Arenas that agree on everything but the Type-2 lists have the same
      chains and heads. */
  lemma SkeletonKeeps(agents: seq<Agent>, a: seq<seq<Node>>, b: seq<seq<Node>>)
    requires SameSkeleton(a, b) && AgentsOk(agents, b) && ChainsOk(b)
    ensures AgentsOk(agents, a) && ChainsOk(a)
  {
  }

  /** Listing an edge id of the table at a node keeps the lists' bounds. */
  lemma PushOutLists(nodes: seq<seq<Node>>, edges: seq<Type2Edge>, x: NodeRef, id: nat)
    requires ListsOk(nodes, edges) && NodeExists(nodes, x) && id < |edges|
    ensures ListsOk(PushOut(nodes, x, id), edges)
  {
    var res: seq<seq<Node>> := PushOut(nodes, x, id);
    forall r, t, k | 0 <= r < |res| && 0 <= t < |res[r]| && 0 <= k < |res[r][t].type2Next|
      ensures res[r][t].type2Next[k] < |edges|
    {
      if At(r, t) == x && k == |nodes[r][t].type2Next| {
      } else {
        assert res[r][t].type2Next[k] == nodes[r][t].type2Next[k];
      }
    }
  }

  lemma PushInLists(nodes: seq<seq<Node>>, edges: seq<Type2Edge>, x: NodeRef, id: nat)
    requires ListsOk(nodes, edges) && NodeExists(nodes, x) && id < |edges|
    ensures ListsOk(PushIn(nodes, x, id), edges)
  {
    var res: seq<seq<Node>> := PushIn(nodes, x, id);
    forall r, t, k | 0 <= r < |res| && 0 <= t < |res[r]| && 0 <= k < |res[r][t].type2Prev|
      ensures res[r][t].type2Prev[k] < |edges|
    {
      if At(r, t) == x && k == |nodes[r][t].type2Prev| {
      } else {
        assert res[r][t].type2Prev[k] == nodes[r][t].type2Prev[k];
      }
    }
  }

  lemma ListsOkGrow(nodes: seq<seq<Node>>, edges: seq<Type2Edge>, edges': seq<Type2Edge>)
    requires ListsOk(nodes, edges) && |edges| <= |edges'|
    ensures ListsOk(nodes, edges')
  {
  }

  /** The committed table keeps ids, endpoints and groups of the old edges,
      and its reverse edge swaps the candidate's endpoints. */
  lemma CommitEdgesOk(nodes: seq<seq<Node>>, nodes': seq<seq<Node>>, edges: seq<Type2Edge>, id: nat, pair: nat)
    requires EdgesOk(nodes, edges) && LateEdges(edges) && id < |edges| && SameSkeleton(nodes', nodes)
    ensures var e' := CommitEdges(edges, id, pair);
      EdgesOk(nodes', e') && LateEdges(e') && SameGrouping(edges, e')
  {
    var e' := CommitEdges(edges, id, pair);
    assert e'[|edges|] == Reverse(edges[id], |edges|, pair);
    forall j | 0 <= j < |e'|
      ensures e'[j].edgeId == j && NodeExists(nodes', e'[j].nodeFrom) && NodeExists(nodes', e'[j].nodeTo)
    {
    }
  }

  /** The invariant of a BTPG: a well-formed graph whose edges join nodes
      with predecessors, a valid group table and a consistent pair table. */
  predicate BtpgOk(agents: seq<Agent>, nodes: seq<seq<Node>>, edges: seq<Type2Edge>,
                   groups: seq<Type2EdgeGroup>, pairs: seq<BiPair>)
  {
    GraphOk(agents, nodes, edges) && LateEdges(edges) && GroupsOk(edges, groups) && PairsOk(edges, pairs)
  }

  /** Grouping the fresh TPG's edges keeps the graph well formed and,
      with no pairs yet, gives a valid BTPG. */
  lemma GroupedStart(agents: seq<Agent>, nodes: seq<seq<Node>>, edges: seq<Type2Edge>,
                     res: seq<Type2Edge>, groups: seq<Type2EdgeGroup>)
    requires GraphOk(agents, nodes, edges) && LateEdges(edges) && PairsOk(edges, [])
    requires |res| == |edges| && forall id | 0 <= id < |edges| :: Stripped(res[id]) == Stripped(edges[id])
    requires GroupsOk(res, groups)
    ensures BtpgOk(agents, nodes, res, groups, [])
  {
  }

  lemma CommitKeepsGrouping(edges: seq<Type2Edge>, id: nat, pair: nat)
    requires id < |edges|
    ensures SameGrouping(edges, CommitEdges(edges, id, pair))
  {
  }

  /** Committing a candidate the probe accepted keeps the whole BTPG well
      formed: graph, endpoints with predecessors, groups and pairs. */
  lemma CommitOk(agents: seq<Agent>, nodes: seq<seq<Node>>, edges: seq<Type2Edge>,
                 groups: seq<Type2EdgeGroup>, pairs: seq<BiPair>, id: nat,
                 nodes': seq<seq<Node>>, edges': seq<Type2Edge>, pairs': seq<BiPair>)
    requires BtpgOk(agents, nodes, edges, groups, pairs)
    requires id < |edges| && !edges[id].isBidirectional
    requires Committed(nodes, edges, pairs, id, nodes', edges', pairs')
    ensures BtpgOk(agents, nodes', edges', groups, pairs') && SameGrouping(edges, edges')
  {
    var afterOut := PushOut(nodes, EndNode(nodes, edges[id]), |edges|);
    ListsOkGrow(nodes, edges, edges');
    PushOutLists(nodes, edges', EndNode(nodes, edges[id]), |edges|);
    PushInLists(afterOut, edges', StartNode(nodes, edges[id]), |edges|);
    SameSkeletonTrans(nodes', afterOut, nodes);
    SkeletonKeeps(agents, nodes', nodes);
    CommitEdgesOk(nodes, nodes', edges, id, |pairs|);
    CommitPairsOk(edges, pairs, id);
    GroupsKept(edges, edges', groups);
  }

  /** The updates of src/BTPG.cpp:186-207 in source order: mark the
      candidate, append the reverse edge, list it at the successor of the
      candidate's target and the predecessor of its source, append the pair,
      then record the pair in both edges. */
  method CommitValues(nodes: seq<seq<Node>>, edges: seq<Type2Edge>, pairs: seq<BiPair>, id: nat)
    returns (nodes': seq<seq<Node>>, edges': seq<Type2Edge>, pairs': seq<BiPair>)
    requires EdgesOk(nodes, edges) && id < |edges|
    requires NodeExists(nodes, EndNode(nodes, edges[id])) && NodeExists(nodes, StartNode(nodes, edges[id]))
    ensures Committed(nodes, edges, pairs, id, nodes', edges', pairs')
  {
    var c := edges[id];
    var endNode := nodes[c.nodeTo.robot][c.nodeTo.step].type1Next;
    var startNode := nodes[c.nodeFrom.robot][c.nodeFrom.step].type1Prev;
    edges' := edges[id := c.(isBidirectional := true)];
    var reverse := DefaultType2Edge().(nodeFrom := c.nodeTo, nodeTo := c.nodeFrom,
                                       edgeId := |edges'|, isBidirectional := true);
    edges' := edges' + [reverse];
    nodes' := PushOut(nodes, endNode, reverse.edgeId);
    nodes' := PushIn(nodes', startNode, reverse.edgeId);
    var pair := NewBiPair(|pairs|, c.edgeId, reverse.edgeId);
    pairs' := pairs + [pair];
    edges' := edges'[id := edges'[id].(biPairId := pair.id)];
    edges' := edges'[reverse.edgeId := edges'[reverse.edgeId].(biPairId := pair.id)];
  }

  /** The wall-clock budget of the upgrade loop (src/BTPG.cpp:80, 97-99). A
      time interval of 0 never runs out; otherwise, elapsed time only grows,
      so a run is described by how many budget checks still find time left. */
  datatype Budget = Unlimited | Checks(allowed: nat)

  /** Budget check number `n` (counted from 0) finds the time used up. */
  predicate Exhausted(budget: Budget, n: nat)
  {
    budget.Checks? && n >= budget.allowed
  }

  /** Group g is a singleton whose edge is not bidirectional yet: a
      candidate the upgrade loop may still try. */
  predicate IsPending(edges: seq<Type2Edge>, groups: seq<Type2EdgeGroup>, g: nat)
  {
    && g < |groups| && |groups[g].type2Edges| == 1 && groups[g].type2Edges[0] < |edges|
    && !edges[groups[g].type2Edges[0]].isBidirectional
  }

  /** The number of pending candidates among groups 0 .. n-1: the measure
      that bounds the passes of the upgrade loop. */
  function PendingCount(edges: seq<Type2Edge>, groups: seq<Type2EdgeGroup>, n: nat): (c: nat)
    ensures c <= n
  {
    if n == 0 then 0
    else PendingCount(edges, groups, n - 1) + (if IsPending(edges, groups, n - 1) then 1 else 0)
  }

  /** When no group becomes pending, the count cannot grow; it drops by one
      for a group `g` below n that stops being pending. */
  lemma {:induction false} PendingCountDrops(edges: seq<Type2Edge>, edges': seq<Type2Edge>,
                                            groups: seq<Type2EdgeGroup>, n: nat, g: int)
    requires forall h | 0 <= h < |groups| :: IsPending(edges', groups, h) ==> IsPending(edges, groups, h)
    requires 0 <= g < n ==> IsPending(edges, groups, g) && !IsPending(edges', groups, g)
    ensures PendingCount(edges', groups, n) + (if 0 <= g < n then 1 else 0) <= PendingCount(edges, groups, n)
  {
    if n > 0 {
      PendingCountDrops(edges, edges', groups, n - 1, g);
    }
  }

  /** Edge j kept its group and endpoints, kept its bidirectional mark if
      it had one, and changed at all only if it forms a group on its own. */
  predicate EdgeKept(edges: seq<Type2Edge>, edges': seq<Type2Edge>, groups: seq<Type2EdgeGroup>, j: nat)
  {
    && j < |edges| <= |edges'|
    && edges'[j].isGrouped == edges[j].isGrouped && edges'[j].groupId == edges[j].groupId
    && edges'[j].nodeFrom == edges[j].nodeFrom && edges'[j].nodeTo == edges[j].nodeTo
    && (edges[j].isBidirectional ==> edges'[j].isBidirectional)
    && (edges'[j] != edges[j] ==> 0 <= edges[j].groupId < |groups| && groups[edges[j].groupId].type2Edges == [j])
  }

  /** From table `edges` to `edges'` the upgrade loop kept every existing
      edge in the sense of `EdgeKept`, made no group pending, and upgraded
      `added` pending candidates. */
  predicate Progress(edges: seq<Type2Edge>, edges': seq<Type2Edge>, groups: seq<Type2EdgeGroup>, added: nat)
  {
    && |edges| <= |edges'|
    && (forall j | 0 <= j < |edges| :: EdgeKept(edges, edges', groups, j))
    && (forall h | 0 <= h < |groups| :: IsPending(edges', groups, h) ==> IsPending(edges, groups, h))
    && PendingCount(edges', groups, |groups|) + added <= PendingCount(edges, groups, |groups|)
  }

  lemma ProgressGrouping(edges: seq<Type2Edge>, edges': seq<Type2Edge>, groups: seq<Type2EdgeGroup>, added: nat)
    requires Progress(edges, edges', groups, added)
    ensures SameGrouping(edges, edges')
  {
    forall id | 0 <= id < |edges|
      ensures edges'[id].isGrouped == edges[id].isGrouped && edges'[id].groupId == edges[id].groupId
      ensures edges'[id].nodeFrom == edges[id].nodeFrom && edges'[id].nodeTo == edges[id].nodeTo
    {
      assert EdgeKept(edges, edges', groups, id);
    }
  }

  lemma ProgressRefl(edges: seq<Type2Edge>, groups: seq<Type2EdgeGroup>)
    ensures Progress(edges, edges, groups, 0)
  {
  }

  lemma ProgressTrans(a: seq<Type2Edge>, b: seq<Type2Edge>, c: seq<Type2Edge>,
                      groups: seq<Type2EdgeGroup>, m: nat, n: nat)
    requires Progress(a, b, groups, m) && Progress(b, c, groups, n)
    ensures Progress(a, c, groups, m + n)
  {
    forall j | 0 <= j < |a| ensures EdgeKept(a, c, groups, j) {
      assert EdgeKept(a, b, groups, j) && EdgeKept(b, c, groups, j);
    }
  }

  /** Committing the edge of a pending singleton group upgrades exactly that
      candidate. */
  lemma CommitProgress(edges: seq<Type2Edge>, groups: seq<Type2EdgeGroup>, g: nat, pair: nat)
    requires GroupsOk(edges, groups) && IsPending(edges, groups, g)
    ensures Progress(edges, CommitEdges(edges, groups[g].type2Edges[0], pair), groups, 1)
  {
    var id := groups[g].type2Edges[0];
    var e' := CommitEdges(edges, id, pair);
    assert GroupOk(edges, groups[g], g);
    assert groups[g].type2Edges == [id];
    forall j | 0 <= j < |edges| ensures EdgeKept(edges, e', groups, j) {
    }
    forall h | 0 <= h < |groups| && IsPending(e', groups, h) ensures IsPending(edges, groups, h) {
      assert GroupOk(edges, groups[h], h);
    }
    PendingCountDrops(edges, e', groups, |groups|, g);
  }

}
