/** What TPG construction computes (src/TPG.cpp:23-91), stated on the input
    paths: the Type-1 chain of every robot and the list of Type-2 links in
    the order the nested construction loops create them, with the lemmas
    that say what that list contains. */
module TpgSpec {
  import opened Util

  /** The two endpoints of a Type-2 edge. */
  datatype Link = Link(from: NodeRef, to: NodeRef)

  /** Node (r, t) of the input exists. */
  predicate ValidPos(paths: seq<seq<Coord>>, r: int, t: int)
  {
    0 <= r < |paths| && 0 <= t < |paths[r]|
  }

  /** Robot r2 occupies, at a later timestep t2, the cell robot r occupies
      at timestep t (src/TPG.cpp:70, 75). */
  predicate Conflict(paths: seq<seq<Coord>>, r: nat, t: nat, r2: nat, t2: nat)
    requires ValidPos(paths, r, t) && ValidPos(paths, r2, t2)
  {
    r != r2 && CoordEq(paths[r2][t2], paths[r][t]) && t2 > t
  }

  /** Every conflict leaves robot r a node after timestep t: the edge source
      is `node->Type1Next`, dereferenced without a null check
      (src/TPG.cpp:78, 82). */
  predicate CanBuild(paths: seq<seq<Coord>>)
  {
    forall r, t, r2, t2 |
      0 <= r < |paths| && 0 <= t < |paths[r]| && 0 <= r2 < |paths| && 0 <= t2 < |paths[r2]| ::
        Conflict(paths, r, t, r2, t2) ==> t + 1 < |paths[r]|
  }

  /** The edge that conflict (r, t, r2, t2) produces: from r's node at t+1 to r2's node at t2. */
  function ConflictLink(r: nat, t: nat, r2: nat, t2: nat): Link
  {
    Link(At(r, t + 1), At(r2, t2))
  }

  /** A prefix of the four nested construction loops of src/TPG.cpp:61-91:
      robots 0 .. k-1; nodes 0 .. k-1 of robot r; node (r, t) against
      robots 0 .. k-1; node (r, t) against nodes 0 .. k-1 of robot r2. */
  datatype Loop =
    | Robots(k: nat)
    | Nodes(r: nat, k: nat)
    | Others(r: nat, t: nat, k: nat)
    | OtherNodes(r: nat, t: nat, r2: nat, k: nat)

  predicate LoopOk(paths: seq<seq<Coord>>, c: Loop)
  {
    match c
    case Robots(k) => k <= |paths|
    case Nodes(r, k) => r < |paths| && k <= |paths[r]|
    case Others(r, t, k) => ValidPos(paths, r, t) && k <= |paths|
    case OtherNodes(r, t, r2, k) => ValidPos(paths, r, t) && r2 < |paths| && k <= |paths[r2]|
  }

  function Depth(c: Loop): nat
  {
    match c
    case Robots(_) => 3
    case Nodes(_, _) => 2
    case Others(_, _, _) => 1
    case OtherNodes(_, _, _, _) => 0
  }

  /** The links the loop prefix c creates, in creation order. One function
      for all four levels keeps the unfolding of nested levels bounded. */
  function Scan(paths: seq<seq<Coord>>, c: Loop): seq<Link>
    requires LoopOk(paths, c)
    decreases Depth(c), c.k
  {
    if c.k == 0 then []
    else match c
      case Robots(k) =>
        Scan(paths, Robots(k - 1)) + Scan(paths, Nodes(k - 1, |paths[k - 1]|))
      case Nodes(r, k) =>
        Scan(paths, Nodes(r, k - 1)) + Scan(paths, Others(r, k - 1, |paths|))
      case Others(r, t, k) =>
        Scan(paths, Others(r, t, k - 1)) + Scan(paths, OtherNodes(r, t, k - 1, |paths[k - 1]|))
      case OtherNodes(r, t, r2, k) =>
        Scan(paths, OtherNodes(r, t, r2, k - 1)) +
        (if Conflict(paths, r, t, r2, k - 1) then [ConflictLink(r, t, r2, k - 1)] else [])
  }

  /** All Type-2 links of the TPG, in creation order. */
  function ConflictLinks(paths: seq<seq<Coord>>): seq<Link>
  {
    Scan(paths, Robots(|paths|))
  }

  /** A created link comes from a conflict: its source is one step after
      the earlier visit, its target is the later visit. */
  predicate LinkOk(paths: seq<seq<Coord>>, l: Link)
  {
    && l.from.At? && l.to.At? && l.from.step >= 1
    && ValidPos(paths, l.from.robot, l.from.step - 1)
    && ValidPos(paths, l.to.robot, l.to.step)
    && Conflict(paths, l.from.robot, l.from.step - 1, l.to.robot, l.to.step)
  }

  predicate RefLess(a: NodeRef, b: NodeRef)
  {
    a.At? && b.At? && (a.robot < b.robot || (a.robot == b.robot && a.step < b.step))
  }

  /** Lexicographic order on (source, target): the order of the construction loops. */
  predicate LinkLess(a: Link, b: Link)
  {
    RefLess(a.from, b.from) || (a.from == b.from && RefLess(a.to, b.to))
  }

  lemma LinkLessTrans(a: Link, b: Link, c: Link)
    requires LinkLess(a, b) && LinkLess(b, c)
    ensures LinkLess(a, c)
  {
  }

  /** Each link comes strictly after the one before it. */
  predicate Ascending(s: seq<Link>)
  {
    forall i | 0 < i < |s| :: LinkLess(s[i - 1], s[i])
  }

  lemma AscendingConcat(a: seq<Link>, b: seq<Link>)
    requires Ascending(a) && Ascending(b)
    requires |a| > 0 && |b| > 0 ==> LinkLess(a[|a| - 1], b[0])
    ensures Ascending(a + b)
  {
    var c := a + b;
    forall i | 0 < i < |c| ensures LinkLess(c[i - 1], c[i]) {
      if i < |a| {
        assert c[i - 1] == a[i - 1] && c[i] == a[i];
      } else if i == |a| {
        assert c[i - 1] == a[|a| - 1] && c[i] == b[0];
      } else {
        assert c[i - 1] == b[i - 1 - |a|] && c[i] == b[i - |a|];
      }
    }
  }

  /** An ascending sequence is strictly sorted, so it has no repeated link. */
  lemma {:induction false} AscendingStrict(s: seq<Link>)
    requires Ascending(s)
    ensures forall i, j | 0 <= i < j < |s| :: LinkLess(s[i], s[j])
  {
    if |s| > 1 {
      var p := s[..|s| - 1];
      assert Ascending(p) by {
        forall i | 0 < i < |p| ensures LinkLess(p[i - 1], p[i]) {
          assert p[i - 1] == s[i - 1] && p[i] == s[i];
        }
      }
      AscendingStrict(p);
      forall i, j | 0 <= i < j < |s| ensures LinkLess(s[i], s[j]) {
        if j < |s| - 1 {
          assert s[i] == p[i] && s[j] == p[j];
        } else if i < j - 1 {
          assert s[i] == p[i] && s[j - 1] == p[j - 1];
          LinkLessTrans(s[i], s[j - 1], s[j]);
        }
      }
    }
  }

  /** Where the links of each loop prefix start and end: the innermost
      scan's links leave (r, t+1) for robot r2 below timestep k. */
  lemma {:induction false} ScanOtherBounds(paths: seq<seq<Coord>>, r: nat, t: nat, r2: nat, k: nat)
    requires ValidPos(paths, r, t) && r2 < |paths| && k <= |paths[r2]|
    ensures forall l | l in Scan(paths, OtherNodes(r, t, r2, k)) ::
      l.from == At(r, t + 1) && l.to.At? && l.to.robot == r2 && l.to.step < k
  {
    if k > 0 {
      var a := Scan(paths, OtherNodes(r, t, r2, k - 1));
      var b := if Conflict(paths, r, t, r2, k - 1) then [ConflictLink(r, t, r2, k - 1)] else [];
      assert Scan(paths, OtherNodes(r, t, r2, k)) == a + b;
      ScanOtherBounds(paths, r, t, r2, k - 1);
    }
  }

  lemma {:induction false} ScanAgentsBounds(paths: seq<seq<Coord>>, r: nat, t: nat, k: nat)
    requires ValidPos(paths, r, t) && k <= |paths|
    ensures forall l | l in Scan(paths, Others(r, t, k)) ::
      l.from == At(r, t + 1) && l.to.At? && l.to.robot < k
  {
    if k > 0 {
      var a := Scan(paths, Others(r, t, k - 1));
      var b := Scan(paths, OtherNodes(r, t, k - 1, |paths[k - 1]|));
      assert Scan(paths, Others(r, t, k)) == a + b;
      ScanAgentsBounds(paths, r, t, k - 1);
      ScanOtherBounds(paths, r, t, k - 1, |paths[k - 1]|);
    }
  }

  lemma {:induction false} ScanNodesBounds(paths: seq<seq<Coord>>, r: nat, k: nat)
    requires r < |paths| && k <= |paths[r]|
    ensures forall l | l in Scan(paths, Nodes(r, k)) ::
      l.from.At? && l.from.robot == r && 1 <= l.from.step <= k
  {
    if k > 0 {
      var a := Scan(paths, Nodes(r, k - 1));
      var b := Scan(paths, Others(r, k - 1, |paths|));
      assert Scan(paths, Nodes(r, k)) == a + b;
      ScanNodesBounds(paths, r, k - 1);
      ScanAgentsBounds(paths, r, k - 1, |paths|);
    }
  }

  lemma {:induction false} ScanAllBounds(paths: seq<seq<Coord>>, k: nat)
    requires k <= |paths|
    ensures forall l | l in Scan(paths, Robots(k)) :: l.from.At? && l.from.robot < k
  {
    if k > 0 {
      var a := Scan(paths, Robots(k - 1));
      var b := Scan(paths, Nodes(k - 1, |paths[k - 1]|));
      assert Scan(paths, Robots(k)) == a + b;
      ScanAllBounds(paths, k - 1);
      ScanNodesBounds(paths, k - 1, |paths[k - 1]|);
    }
  }

  /** Every created link comes from a conflict. */
  lemma {:induction false} ScanOtherSound(paths: seq<seq<Coord>>, r: nat, t: nat, r2: nat, k: nat)
    requires ValidPos(paths, r, t) && r2 < |paths| && k <= |paths[r2]|
    ensures forall l | l in Scan(paths, OtherNodes(r, t, r2, k)) :: LinkOk(paths, l)
  {
    if k > 0 {
      ScanOtherSound(paths, r, t, r2, k - 1);
    }
  }

  lemma {:induction false} ScanAgentsSound(paths: seq<seq<Coord>>, r: nat, t: nat, k: nat)
    requires ValidPos(paths, r, t) && k <= |paths|
    ensures forall l | l in Scan(paths, Others(r, t, k)) :: LinkOk(paths, l)
  {
    if k > 0 {
      var a := Scan(paths, Others(r, t, k - 1));
      var b := Scan(paths, OtherNodes(r, t, k - 1, |paths[k - 1]|));
      assert Scan(paths, Others(r, t, k)) == a + b;
      ScanAgentsSound(paths, r, t, k - 1);
      ScanOtherSound(paths, r, t, k - 1, |paths[k - 1]|);
      SoundConcat(paths, a, b);
    }
  }

  lemma {:induction false} ScanNodesSound(paths: seq<seq<Coord>>, r: nat, k: nat)
    requires r < |paths| && k <= |paths[r]|
    ensures forall l | l in Scan(paths, Nodes(r, k)) :: LinkOk(paths, l)
  {
    if k > 0 {
      var a := Scan(paths, Nodes(r, k - 1));
      var b := Scan(paths, Others(r, k - 1, |paths|));
      assert Scan(paths, Nodes(r, k)) == a + b;
      ScanNodesSound(paths, r, k - 1);
      ScanAgentsSound(paths, r, k - 1, |paths|);
      SoundConcat(paths, a, b);
    }
  }

  lemma SoundConcat(paths: seq<seq<Coord>>, a: seq<Link>, b: seq<Link>)
    requires forall l | l in a :: LinkOk(paths, l)
    requires forall l | l in b :: LinkOk(paths, l)
    ensures forall l | l in a + b :: LinkOk(paths, l)
  {
  }

  lemma {:induction false} ScanAllSound(paths: seq<seq<Coord>>, k: nat)
    requires k <= |paths|
    ensures forall l | l in Scan(paths, Robots(k)) :: LinkOk(paths, l)
  {
    if k > 0 {
      var a := Scan(paths, Robots(k - 1));
      var b := Scan(paths, Nodes(k - 1, |paths[k - 1]|));
      assert Scan(paths, Robots(k)) == a + b;
      ScanAllSound(paths, k - 1);
      ScanNodesSound(paths, k - 1, |paths[k - 1]|);
      SoundConcat(paths, a, b);
    }
  }

  lemma {:induction false} ScanOtherAscending(paths: seq<seq<Coord>>, r: nat, t: nat, r2: nat, k: nat)
    requires ValidPos(paths, r, t) && r2 < |paths| && k <= |paths[r2]|
    ensures Ascending(Scan(paths, OtherNodes(r, t, r2, k)))
  {
    if k > 0 {
      var a := Scan(paths, OtherNodes(r, t, r2, k - 1));
      ScanOtherAscending(paths, r, t, r2, k - 1);
      if Conflict(paths, r, t, r2, k - 1) {
        ScanOtherBounds(paths, r, t, r2, k - 1);
        if |a| > 0 {
          assert a[|a| - 1] in a;
        }
        AscendingConcat(a, [ConflictLink(r, t, r2, k - 1)]);
      } else {
        assert Scan(paths, OtherNodes(r, t, r2, k)) == a;
      }
    }
  }

  lemma {:induction false} ScanAgentsAscending(paths: seq<seq<Coord>>, r: nat, t: nat, k: nat)
    requires ValidPos(paths, r, t) && k <= |paths|
    ensures Ascending(Scan(paths, Others(r, t, k)))
  {
    if k > 0 {
      var a := Scan(paths, Others(r, t, k - 1));
      var b := Scan(paths, OtherNodes(r, t, k - 1, |paths[k - 1]|));
      assert Scan(paths, Others(r, t, k)) == a + b;
      ScanAgentsAscending(paths, r, t, k - 1);
      ScanOtherAscending(paths, r, t, k - 1, |paths[k - 1]|);
      if |a| > 0 && |b| > 0 {
        ScanAgentsBounds(paths, r, t, k - 1);
        ScanOtherBounds(paths, r, t, k - 1, |paths[k - 1]|);
        assert a[|a| - 1] in a && b[0] in b;
      }
      AscendingConcat(a, b);
    }
  }

  lemma {:induction false} ScanNodesAscending(paths: seq<seq<Coord>>, r: nat, k: nat)
    requires r < |paths| && k <= |paths[r]|
    ensures Ascending(Scan(paths, Nodes(r, k)))
  {
    if k > 0 {
      var a := Scan(paths, Nodes(r, k - 1));
      var b := Scan(paths, Others(r, k - 1, |paths|));
      assert Scan(paths, Nodes(r, k)) == a + b;
      ScanNodesAscending(paths, r, k - 1);
      ScanAgentsAscending(paths, r, k - 1, |paths|);
      if |a| > 0 && |b| > 0 {
        ScanNodesBounds(paths, r, k - 1);
        ScanAgentsBounds(paths, r, k - 1, |paths|);
        assert a[|a| - 1] in a && b[0] in b;
      }
      AscendingConcat(a, b);
    }
  }

  lemma {:induction false} ScanAllAscending(paths: seq<seq<Coord>>, k: nat)
    requires k <= |paths|
    ensures Ascending(Scan(paths, Robots(k)))
  {
    if k > 0 {
      var a := Scan(paths, Robots(k - 1));
      var b := Scan(paths, Nodes(k - 1, |paths[k - 1]|));
      assert Scan(paths, Robots(k)) == a + b;
      ScanAllAscending(paths, k - 1);
      ScanNodesAscending(paths, k - 1, |paths[k - 1]|);
      if |a| > 0 && |b| > 0 {
        ScanAllBounds(paths, k - 1);
        ScanNodesBounds(paths, k - 1, |paths[k - 1]|);
        assert a[|a| - 1] in a && b[0] in b;
      }
      AscendingConcat(a, b);
    }
  }

  lemma {:induction false} ScanOtherComplete(paths: seq<seq<Coord>>, r: nat, t: nat, r2: nat, k: nat, t2: nat)
    requires ValidPos(paths, r, t) && r2 < |paths| && k <= |paths[r2]|
    requires t2 < k && Conflict(paths, r, t, r2, t2)
    ensures ConflictLink(r, t, r2, t2) in Scan(paths, OtherNodes(r, t, r2, k))
  {
    if t2 < k - 1 {
      ScanOtherComplete(paths, r, t, r2, k - 1, t2);
    }
  }

  lemma {:induction false} ScanAgentsComplete(paths: seq<seq<Coord>>, r: nat, t: nat, k: nat, r2: nat, t2: nat)
    requires ValidPos(paths, r, t) && k <= |paths| && r2 < k && ValidPos(paths, r2, t2)
    requires Conflict(paths, r, t, r2, t2)
    ensures ConflictLink(r, t, r2, t2) in Scan(paths, Others(r, t, k))
  {
    var a := Scan(paths, Others(r, t, k - 1));
    var b := Scan(paths, OtherNodes(r, t, k - 1, |paths[k - 1]|));
    assert Scan(paths, Others(r, t, k)) == a + b;
    if r2 < k - 1 {
      ScanAgentsComplete(paths, r, t, k - 1, r2, t2);
      assert ConflictLink(r, t, r2, t2) in a;
    } else {
      ScanOtherComplete(paths, r, t, r2, |paths[r2]|, t2);
      assert ConflictLink(r, t, r2, t2) in b;
    }
  }

  lemma {:induction false} ScanNodesComplete(paths: seq<seq<Coord>>, r: nat, k: nat, t: nat, r2: nat, t2: nat)
    requires r < |paths| && k <= |paths[r]| && t < k && ValidPos(paths, r2, t2)
    requires Conflict(paths, r, t, r2, t2)
    ensures ConflictLink(r, t, r2, t2) in Scan(paths, Nodes(r, k))
  {
    var a := Scan(paths, Nodes(r, k - 1));
    var b := Scan(paths, Others(r, k - 1, |paths|));
    assert Scan(paths, Nodes(r, k)) == a + b;
    if t < k - 1 {
      ScanNodesComplete(paths, r, k - 1, t, r2, t2);
      assert ConflictLink(r, t, r2, t2) in a;
    } else {
      ScanAgentsComplete(paths, r, t, |paths|, r2, t2);
      assert ConflictLink(r, t, r2, t2) in b;
    }
  }

  lemma {:induction false} ScanAllComplete(paths: seq<seq<Coord>>, k: nat, r: nat, t: nat, r2: nat, t2: nat)
    requires k <= |paths| && r < k && ValidPos(paths, r, t) && ValidPos(paths, r2, t2)
    requires Conflict(paths, r, t, r2, t2)
    ensures ConflictLink(r, t, r2, t2) in Scan(paths, Robots(k))
  {
    var a := Scan(paths, Robots(k - 1));
    var b := Scan(paths, Nodes(k - 1, |paths[k - 1]|));
    assert Scan(paths, Robots(k)) == a + b;
    if r < k - 1 {
      ScanAllComplete(paths, k - 1, r, t, r2, t2);
      assert ConflictLink(r, t, r2, t2) in a;
    } else {
      ScanNodesComplete(paths, r, |paths[r]|, t, r2, t2);
      assert ConflictLink(r, t, r2, t2) in b;
    }
  }

  /** The innermost scan of a robot against itself finds nothing: the
      construction loop skips that case (src/TPG.cpp:70). */
  lemma {:induction false} ScanOtherSelf(paths: seq<seq<Coord>>, r: nat, t: nat, k: nat)
    requires ValidPos(paths, r, t) && k <= |paths[r]|
    ensures Scan(paths, OtherNodes(r, t, r, k)) == []
  {
    if k > 0 {
      ScanOtherSelf(paths, r, t, k - 1);
    }
  }

  lemma ConcatAssoc(a: seq<Link>, b: seq<Link>, c: seq<Link>)
    ensures a + (b + c) == (a + b) + c
  {
  }

  /** The edge record created for the id-th link (src/TPG.cpp:77-80). */
  function MakeEdge(id: nat, l: Link): (e: Type2Edge)
    ensures e.edgeId == id && e.nodeFrom == l.from && e.nodeTo == l.to
    ensures e.groupId == -1 && e.biPairId == -1 && !e.isBidirectional && !e.isGrouped
  {
    DefaultType2Edge().(edgeId := id, nodeFrom := l.from, nodeTo := l.to)
  }

  /** The edge table that appending the links one by one produces. */
  function EdgeTable(links: seq<Link>): (t: seq<Type2Edge>)
    ensures |t| == |links|
  {
    seq(|links|, i requires 0 <= i < |links| => MakeEdge(i, links[i]))
  }

  lemma EdgeTableAppend(links: seq<Link>, l: Link)
    ensures EdgeTable(links + [l]) == EdgeTable(links) + [MakeEdge(|links|, l)]
  {
  }

  /** Ids, in table order, of the edges leaving node n. */
  function OutIds(edges: seq<Type2Edge>, n: NodeRef): seq<nat>
  {
    if |edges| == 0 then []
    else OutIds(edges[..|edges| - 1], n) + (if edges[|edges| - 1].nodeFrom == n then [|edges| - 1] else [])
  }

  /** Ids, in table order, of the edges entering node n. */
  function InIds(edges: seq<Type2Edge>, n: NodeRef): seq<nat>
  {
    if |edges| == 0 then []
    else InIds(edges[..|edges| - 1], n) + (if edges[|edges| - 1].nodeTo == n then [|edges| - 1] else [])
  }

  /** A node's outgoing list holds exactly the ids of the edges leaving it,
      in increasing order. */
  lemma {:induction false} OutIdsExact(edges: seq<Type2Edge>, n: NodeRef)
    ensures forall id: nat :: id in OutIds(edges, n) <==> id < |edges| && edges[id].nodeFrom == n
    ensures Increasing(OutIds(edges, n))
  {
    if |edges| > 0 {
      var front := edges[..|edges| - 1];
      OutIdsExact(front, n);
      assert forall id: nat :: id < |front| ==> front[id] == edges[id];
      assert forall id :: id in OutIds(front, n) ==> id < |edges| - 1;
      AppendLarger(OutIds(front, n), |edges| - 1);
    }
  }

  /** Likewise, a node's incoming list holds exactly the ids of the edges entering it. */
  lemma {:induction false} InIdsExact(edges: seq<Type2Edge>, n: NodeRef)
    ensures forall id: nat :: id in InIds(edges, n) <==> id < |edges| && edges[id].nodeTo == n
    ensures Increasing(InIds(edges, n))
  {
    if |edges| > 0 {
      var front := edges[..|edges| - 1];
      InIdsExact(front, n);
      assert forall id: nat :: id < |front| ==> front[id] == edges[id];
      assert forall id :: id in InIds(front, n) ==> id < |edges| - 1;
      AppendLarger(InIds(front, n), |edges| - 1);
    }
  }

  predicate Increasing(a: seq<nat>)
  {
    forall i, j | 0 <= i < j < |a| :: a[i] < a[j]
  }

  lemma AppendLarger(a: seq<nat>, x: nat)
    requires Increasing(a)
    requires forall y :: y in a ==> y < x
    ensures Increasing(a + [x])
  {
    forall i, j | 0 <= i < j < |a + [x]| ensures (a + [x])[i] < (a + [x])[j] {
      if j == |a| {
        assert (a + [x])[i] == a[i] && a[i] in a;
      }
    }
  }

  /** Appending an edge extends exactly the lists of its two endpoints. */
  lemma OutInIdsAppend(edges: seq<Type2Edge>, e: Type2Edge, n: NodeRef)
    ensures OutIds(edges + [e], n) == OutIds(edges, n) + (if e.nodeFrom == n then [|edges|] else [])
    ensures InIds(edges + [e], n) == InIds(edges, n) + (if e.nodeTo == n then [|edges|] else [])
  {
    assert (edges + [e])[..|edges|] == edges;
  }

  /** Every edge of the constructed table has its id as position, joins
      two existing nodes of different robots, starts one step after an
      earlier visit of a cell the target robot visits later, and so never
      goes back in time. */
  lemma ConflictEdgesWellFormed(paths: seq<seq<Coord>>)
    requires CanBuild(paths)
    ensures var E := EdgeTable(ConflictLinks(paths));
      forall i :: 0 <= i < |E| ==>
        && E[i].edgeId == i
        && E[i].nodeFrom.At? && E[i].nodeTo.At?
        && ValidPos(paths, E[i].nodeFrom.robot, E[i].nodeFrom.step)
        && ValidPos(paths, E[i].nodeTo.robot, E[i].nodeTo.step)
        && E[i].nodeFrom.robot != E[i].nodeTo.robot
        && 1 <= E[i].nodeFrom.step <= E[i].nodeTo.step
        && Conflict(paths, E[i].nodeFrom.robot, E[i].nodeFrom.step - 1, E[i].nodeTo.robot, E[i].nodeTo.step)
  {
    var L := ConflictLinks(paths);
    ScanAllSound(paths, |paths|);
    forall i | 0 <= i < |L| ensures LinkOk(paths, L[i]) {
      assert L[i] in L;
    }
  }

  /** No two constructed edges share both endpoints. */
  lemma ConflictEdgesDistinct(paths: seq<seq<Coord>>)
    ensures var E := EdgeTable(ConflictLinks(paths));
      forall i, j :: 0 <= i < |E| && 0 <= j < |E| && E[i].nodeFrom == E[j].nodeFrom && E[i].nodeTo == E[j].nodeTo ==> i == j
  {
    var L := ConflictLinks(paths);
    var E := EdgeTable(L);
    ScanAllAscending(paths, |paths|);
    AscendingStrict(L);
    forall i, j | 0 <= i < j < |E|
      ensures E[i].nodeFrom != E[j].nodeFrom || E[i].nodeTo != E[j].nodeTo
    {
      assert LinkLess(L[i], L[j]);
    }
  }

  /** Every conflict produces an edge: for robots r != r2 and nodes (r, t),
      (r2, t2) on the same cell with t2 > t, the table holds the edge from
      (r, t+1) to (r2, t2) (exactly one, by ConflictEdgesDistinct). */
  lemma ConflictEdgesComplete(paths: seq<seq<Coord>>, r: nat, t: nat, r2: nat, t2: nat)
    requires ValidPos(paths, r, t) && ValidPos(paths, r2, t2) && Conflict(paths, r, t, r2, t2)
    ensures var E := EdgeTable(ConflictLinks(paths));
      exists i :: 0 <= i < |E| && E[i].nodeFrom == At(r, t + 1) && E[i].nodeTo == At(r2, t2)
  {
    var L := ConflictLinks(paths);
    var E := EdgeTable(L);
    ScanAllComplete(paths, |paths|, r, t, r2, t2);
    var i :| 0 <= i < |L| && L[i] == ConflictLink(r, t, r2, t2);
    assert E[i].nodeFrom == At(r, t + 1) && E[i].nodeTo == At(r2, t2);
  }
}
