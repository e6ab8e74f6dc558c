/** What a session keeps when it is loaded through sgpd, and which node its head becomes. */
module SgpdTheorems {
  import opened Types
  import opened Sequences
  import opened GraphState
  import opened GraphInvariant
  import opened GraphTheorems
  import opened Lineage
  import opened Replay
  import opened TopoOrder
  import opened TopoLevels
  import opened Ties
  import opened TopoSort
  import opened Storage
  import opened SessionGraph
  import opened GraphShape
  import opened Convert
  import opened Sgpd

  lemma {:induction false} WireMap(ns: seq<Node>)
    ensures NodeMap(WireNodes(ns)).Keys == NodeMap(ns).Keys
    ensures forall id :: id in NodeMap(ns) ==> NodeMap(WireNodes(ns))[id] == WireNode(NodeMap(ns)[id])
  {
    if ns != [] {
      assert WireNodes(ns)[..|ns| - 1] == WireNodes(ns[..|ns| - 1]);
      WireMap(ns[..|ns| - 1]);
    }
  }

  lemma ReceivedViews(g: State, sorted: seq<Node>)
    ensures Received(g, sorted).nodes == NodeMap(WireNodes(sorted))
    ensures Received(g, sorted).children == ChildIndex(WireNodes(sorted))
    ensures Received(g, sorted).headID == LastID(sorted)
  {
  }

  lemma ReceivedNodes(g: State, sorted: seq<Node>)
    requires Loadable(g) && SortedNodes(g.nodes, sorted)
    ensures Received(g, sorted).nodes.Keys == g.nodes.Keys
    ensures forall id :: id in g.nodes ==> Received(g, sorted).nodes[id] == WireNode(g.nodes[id])
    ensures SameParents(g.nodes, Received(g, sorted).nodes)
  {
    ReceivedViews(g, sorted);
    SortedNodeMap(g.nodes, sorted);
    WireMap(sorted);
    forall id | id in g.nodes ensures WireNode(g.nodes[id]).Parents() == g.nodes[id].Parents() {
      NodeRoundTrip(g.nodes[id]);
    }
  }

  lemma ReceivedInverse(g: State, sorted: seq<Node>)
    requires Loadable(g) && SortedNodes(g.nodes, sorted)
    ensures InverseOfParents(Received(g, sorted).nodes, Received(g, sorted).children)
  {
    hide MessageFromProto, MessageToProto, ParentIDs, ParentEdges, NodeMap;
    hide ChildIndex, FifoOrder, DepMap, InverseOfParents;
    var ws := WireNodes(sorted);
    SortedDistinct(g.nodes, sorted);
    forall n | n in ws ensures Distinct(n.Parents()) {
      var k :| 0 <= k < |ws| && ws[k] == n;
      assert sorted[k] in sorted && LoadableNode(g, g.nodes[sorted[k].id]);
      NodeRoundTrip(sorted[k]);
    }
    ViewsInverse(ws);
  }

  /** On a reachable graph the path never fails, and keeps the wire projection of every node and the terminal state. */
  lemma LoadKeepsNodes(g: State, sorted: seq<Node>)
    requires Reachable(g) && g.started && SortedNodes(g.nodes, sorted)
    ensures var r := Restore(OverTheWire(SynthLog(g, sorted)));
      && r == Ok(Received(g, sorted)) && r.value.session == g.session && r.value.started
      && r.value.nodes.Keys == g.nodes.Keys
      && (forall id :: id in g.nodes ==> r.value.nodes[id] == WireNode(g.nodes[id]))
      && r.value.closed == g.closed && r.value.terminalNodeID == g.terminalNodeID && r.value.endReason == g.endReason
  {
    ReachableLoadable(g);
    ReachableInv(g);
    LoadSucceeds(g, sorted);
    ReceivedNodes(g, sorted);
  }

  lemma {:induction false} LineageProjects(nodes: map<ID, Node>, nodes': map<ID, Node>, id: ID, l: seq<Node>)
    requires nodes'.Keys == nodes.Keys && forall x :: x in nodes ==> nodes'[x] == WireNode(nodes[x])
    requires IsLineage(nodes, id, l)
    ensures IsLineage(nodes', id, WireNodes(l))
    decreases |l|
  {
    hide MessageFromProto, MessageToProto, ParentIDs, ParentEdges;
    NodeRoundTrip(nodes[id]);
    var parents := nodes[id].Parents();
    if parents != [] {
      LineageProjects(nodes, nodes', parents[0], l[..|l| - 1]);
      assert WireNodes(l)[..|l| - 1] == WireNodes(l[..|l| - 1]);
    }
  }

  /** Every lineage keeps its IDs, and its messages when their content parts set one field each. */
  lemma LoadKeepsLineage(g: State, sorted: seq<Node>, id: ID, l: seq<Node>)
    requires Reachable(g) && g.started && SortedNodes(g.nodes, sorted) && IsLineage(g.nodes, id, l)
    ensures IsLineage(Received(g, sorted).nodes, id, WireNodes(l))
    ensures forall i :: 0 <= i < |l| ==>
      && WireNodes(l)[i].id == l[i].id
      && (PartsFit(l[i].message) ==> WireNodes(l)[i].message == l[i].message)
  {
    ReachableLoadable(g);
    ReceivedNodes(g, sorted);
    LineageProjects(g.nodes, Received(g, sorted).nodes, id, l);
    LineageMessages(g, id, l);
  }

  lemma LineageMessages(g: State, id: ID, l: seq<Node>)
    requires Loadable(g) && IsLineage(g.nodes, id, l)
    ensures forall i :: 0 <= i < |l| ==>
      && WireNodes(l)[i].id == l[i].id
      && (PartsFit(l[i].message) ==> WireNodes(l)[i].message == l[i].message)
  {
    forall i | 0 <= i < |l| ensures PartsFit(l[i].message) ==> WireNodes(l)[i].message == l[i].message {
      LineageLoadable(g, id, l, i);
      NodeRoundTrip(l[i]);
    }
  }

  lemma {:induction false} LineageLoadable(g: State, id: ID, l: seq<Node>, i: nat)
    requires Loadable(g) && IsLineage(g.nodes, id, l) && i < |l|
    ensures LoadableNode(g, l[i])
    decreases |l|
  {
    if i < |l| - 1 {
      LineageLoadable(g, g.nodes[id].Parents()[0], l[..|l| - 1], i);
    }
  }

  /** The loaded graph advances and waits for inference exactly as the stored one. */
  lemma LoadKeepsBehaviour(g: State, sorted: seq<Node>, id: ID)
    requires Reachable(g) && g.started && SortedNodes(g.nodes, sorted)
    ensures Pending(Received(g, sorted), id) <==> Pending(g, id)
    ensures forall to, n: nat :: AdvancesTo(Received(g, sorted).children, id, to, n) <==>
      AdvancesTo(g.children, id, to, n)
  {
    var g' := Received(g, sorted);
    ReachableLoadable(g);
    ReceivedNodes(g, sorted);
    ReceivedInverse(g, sorted);
    ReachableChildren(g);
    if id in g.nodes {
      assert LoadableNode(g, g.nodes[id]);
      NodeRoundTrip(g.nodes[id]);
    }
    SamePending(g, g', id);
    forall to, n: nat ensures AdvancesTo(g'.children, id, to, n) <==> AdvancesTo(g.children, id, to, n) {
      SameAdvance(g.nodes, g.children, g'.nodes, g'.children, id, to, n);
    }
  }

  // ----- the head -----

  lemma LastIsDeepest(m: map<ID, Node>, sorted: seq<Node>, depth: map<ID, nat>, id: ID)
    requires SortedNodes(m, sorted) && IsDepth(DepMap(m), depth) && id in m
    ensures sorted != [] && LastID(sorted) in depth && id in depth && depth[id] <= depth[LastID(sorted)]
  {
    hide IsDepth, FifoOrder, DepMap, Times;
    FifoLastIsDeepest(DepMap(m), Times(m), IDs(sorted), depth, id);
  }

  /** The loaded head is the last node of the sort, a node of greatest depth. */
  lemma LoadedHeadIsDeepest(g: State, sorted: seq<Node>, depth: map<ID, nat>, id: ID)
    requires Loadable(g) && SortedNodes(g.nodes, sorted) && IsDepth(DepMap(g.nodes), depth) && id in g.nodes
    ensures var head := Received(g, sorted).headID;
      sorted != [] && head == sorted[|sorted| - 1].id && head in depth && id in depth && depth[id] <= depth[head]
  {
    ReceivedViews(g, sorted);
    LastIsDeepest(g.nodes, sorted, depth, id);
  }

  /**
   When the head survives, under distinct timestamps: exactly when the sort puts every other node sooner,
   a condition on the dependencies, depths and timestamps of the stored nodes alone.
   */
  lemma HeadKeptIff(g: State, sorted: seq<Node>, depth: map<ID, nat>)
    requires Reachable(g) && g.started && SortedNodes(g.nodes, sorted)
    requires IsDepth(DepMap(g.nodes), depth) && DistinctTimes(Times(g.nodes))
    ensures Measured(DepMap(g.nodes), Times(g.nodes), depth) && (g.nodes != map[] ==> g.headID in g.nodes)
    ensures Received(g, sorted).headID == g.headID <==>
      forall id :: id in g.nodes && id != g.headID && g.headID in g.nodes ==>
        Sooner(DepMap(g.nodes), Times(g.nodes), depth, id, g.headID)
  {
    hide Sooner, IsDepth, DepMap, Times, Reachable;
    ReceivedViews(g, sorted);
    ReachableRootAndHead(g);
    SortMeasured(g.nodes, sorted, depth);
    if g.nodes == map[] {
      NoNodesNoSort(g.nodes, sorted);
    } else {
      SortedLast(g.nodes, sorted, depth, g.headID);
    }
  }

  /**
   When the head survives, whatever the timestamps: a run keeps it exactly when it is latest after breaking the
   ties as the run does, and every run keeps it exactly when it is latest however they are broken.
   */
  lemma HeadKeptByEveryRunIff(g: State, depth: map<ID, nat>)
    requires Reachable(g) && g.started && g.nodes != map[] && IsDepth(DepMap(g.nodes), depth)
    ensures forall sorted :: SortedNodes(g.nodes, sorted) ==>
      (Received(g, sorted).headID == g.headID <==>
        Latest(DepMap(g.nodes), ByPlace(Times(g.nodes), IDs(sorted)), depth, g.headID))
    ensures (forall sorted :: SortedNodes(g.nodes, sorted) ==> Received(g, sorted).headID == g.headID) <==>
      (forall time' :: Refines(Times(g.nodes), time') ==> Latest(DepMap(g.nodes), time', depth, g.headID))
  {
    hide IsDepth, DepMap, Times, Reachable, Latest, ByPlace, FifoOrder, Received, EndsWith;
    ReachableRootAndHead(g);
    ReachableAcyclic(g);
    DepMapClosed(g.nodes);
    var D, time := DepMap(g.nodes), Times(g.nodes);
    forall sorted | SortedNodes(g.nodes, sorted)
      ensures Received(g, sorted).headID == g.headID <==> EndsWith(IDs(sorted), g.headID)
      ensures Received(g, sorted).headID == g.headID <==> Latest(D, ByPlace(time, IDs(sorted)), depth, g.headID)
    {
      HeadIsLastID(g, sorted);
      RunEndsIff(D, time, IDs(sorted), depth, g.headID);
    }
    forall s | FifoOrder(D, time, s) ensures exists sorted :: SortedNodes(g.nodes, sorted) && IDs(sorted) == s {
      var sorted := NodesInOrder(g.nodes, s);
    }
    LastInEveryRunIff(D, time, depth, g.headID);
  }

  lemma HeadIsLastID(g: State, sorted: seq<Node>)
    requires SortedNodes(g.nodes, sorted) && g.nodes != map[]
    ensures Received(g, sorted).headID == g.headID <==> EndsWith(IDs(sorted), g.headID)
  {
    hide FifoOrder;
    ReceivedViews(g, sorted);
    var id :| id in g.nodes;
    SortedIDs(g.nodes, sorted);
    assert id in IDs(sorted);
  }

  /** Every run of the sort on the IDs is one on the nodes. */
  lemma NodesInOrder(m: map<ID, Node>, s: seq<ID>) returns (sorted: seq<Node>)
    requires Keyed(m) && FifoOrder(DepMap(m), Times(m), s)
    ensures SortedNodes(m, sorted) && IDs(sorted) == s
  {
    hide Layered, DepsEarlier;
    assert forall i :: 0 <= i < |s| ==> s[i] in s && s[i] in m;
    sorted := seq(|s|, i requires 0 <= i < |s| => m[s[i]]);
    assert IDs(sorted) == s;
  }

  lemma SortMeasured(m: map<ID, Node>, sorted: seq<Node>, depth: map<ID, nat>)
    requires SortedNodes(m, sorted) && IsDepth(DepMap(m), depth)
    ensures Measured(DepMap(m), Times(m), depth)
  {
    FifoMeasured(DepMap(m), Times(m), IDs(sorted), depth);
  }

  lemma SortedLast(m: map<ID, Node>, sorted: seq<Node>, depth: map<ID, nat>, h: ID)
    requires SortedNodes(m, sorted) && IsDepth(DepMap(m), depth) && DistinctTimes(Times(m)) && h in m
    ensures Measured(DepMap(m), Times(m), depth) && sorted != []
    ensures LastID(sorted) == h <==> forall id :: id in m && id != h ==> Sooner(DepMap(m), Times(m), depth, id, h)
  {
    hide Sooner, IsDepth, FifoOrder, Times;
    LastIsLatest(DepMap(m), Times(m), IDs(sorted), depth, h);
  }

  /** The head survives only if it has the greatest depth, whatever the timestamps. */
  lemma KeptHeadIsDeepest(g: State, sorted: seq<Node>, depth: map<ID, nat>, id: ID)
    requires Loadable(g) && SortedNodes(g.nodes, sorted) && IsDepth(DepMap(g.nodes), depth)
    requires Received(g, sorted).headID == g.headID && id in g.nodes
    ensures g.headID in depth && id in depth && depth[id] <= depth[g.headID]
  {
    LoadedHeadIsDeepest(g, sorted, depth, id);
  }

  /** The head survives if it alone has the greatest depth, whatever the timestamps. */
  lemma DeepestHeadIsKept(g: State, sorted: seq<Node>, depth: map<ID, nat>)
    requires Loadable(g) && SortedNodes(g.nodes, sorted) && IsDepth(DepMap(g.nodes), depth)
    requires g.headID in g.nodes && depth.Keys == g.nodes.Keys
    requires forall id :: id in g.nodes && id != g.headID ==> depth[id] < depth[g.headID]
    ensures Received(g, sorted).headID == g.headID
  {
    LoadedHeadIsDeepest(g, sorted, depth, g.headID);
    ReceivedViews(g, sorted);
    SortedHasLast(g.nodes, sorted, g.headID);
  }

  /** In a graph without branching the head is preserved. */
  lemma ChainKeepsHead(g: State, sorted: seq<Node>)
    requires Reachable(g) && g.started && SortedNodes(g.nodes, sorted) && AtMostOneChild(g)
    ensures Received(g, sorted).headID == g.headID
  {
    ReachableInv(g);
    ReceivedViews(g, sorted);
    var ns := AppendOrder(g.events);
    var ended :| Agrees(g, ns, ended);
    ChainSortsLast(g, ns, ended, sorted);
  }

  lemma ChainSortsLast(g: State, ns: seq<Node>, ended: Time, sorted: seq<Node>)
    requires Agrees(g, ns, ended) && AtMostOneChild(g) && SortedNodes(g.nodes, sorted)
    ensures LastID(sorted) == g.headID
  {
    hide SortedNodes, NodeMap, WellPlaced, AtMostOneChild, ChildIndex;
    if ns == [] {
      NodeMapKeys(ns);
      NoNodesNoSort(g.nodes, sorted);
    } else {
      AgreesMember(g, ns, ended, 0);
      SortedHasLast(g.nodes, sorted, ns[0].id);
      AgreesOrder(g, ns, ended, LastID(sorted));
      var k := Position(ns, LastID(sorted));
      if k < |ns| - 1 {
        NextComesLater(g, ns, ended, sorted, k);
      }
    }
  }

  lemma NoNodesNoSort(m: map<ID, Node>, sorted: seq<Node>)
    requires SortedNodes(m, sorted) && forall id :: id !in m
    ensures sorted == []
  {
    DepOrderLength(DepMap(m), IDs(sorted));
    assert DepMap(m).Keys == {};
  }

  lemma SortedHasLast(m: map<ID, Node>, sorted: seq<Node>, id: ID)
    requires SortedNodes(m, sorted) && id in m
    ensures sorted != [] && LastID(sorted) in m
  {
    assert id in IDs(sorted);
    assert sorted[|sorted| - 1] in sorted;
  }

  /** In an unbranched graph, the node after node k cannot be sorted before it. */
  lemma NextComesLater(g: State, ns: seq<Node>, ended: Time, sorted: seq<Node>, k: nat)
    requires Agrees(g, ns, ended) && AtMostOneChild(g) && SortedNodes(g.nodes, sorted) && k + 1 < |ns|
    ensures sorted != [] && sorted[|sorted| - 1].id != ns[k].id
  {
    var s := IDs(sorted);
    UnbranchedIsChain(g, ns, ended, k + 1);
    AgreesMember(g, ns, ended, k);
    AgreesMember(g, ns, ended, k + 1);
    AgreesInverse(g, ns, ended);
    var c := ns[k + 1].id;
    assert c in ChildList(g.children, ns[k].id);
    ParentIsDependency(g.nodes, c, ns[k].id);
    assert c in s;
    DepIsEarlier(DepMap(g.nodes), s, IndexIn(s, c), ns[k].id);
    var i := IndexIn(s, ns[k].id);
    assert i < |s| - 1;
    assert s[i] != s[|s| - 1];
  }
}
