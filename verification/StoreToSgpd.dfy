/** From the Cayley store through sgpd to a client: the two codecs composed. */
module StoreToSgpd {
  import opened Types
  import opened GraphState
  import opened GraphInvariant
  import opened Lineage
  import opened Replay
  import opened TopoOrder
  import opened TopoSort
  import opened Storage
  import opened SessionGraph
  import opened GraphShape
  import opened Convert
  import opened Sgpd
  import opened SgpdTheorems
  import opened Quads
  import opened NodeCodec
  import opened StoreLoad
  import opened WriteThrough
  import opened StoreTheorems

  /** The graph the server loads has all that sgpd needs. */
  lemma StoredIsLoadable(quads: set<Quad>, g: State, ld: Loaded, sorted: seq<Node>)
    requires Reachable(g) && g.started && Mirrors(quads, g) && PlainTable(g.nodes) && LoadRead(quads, g.session.id, ld)
    requires SortedNodes(NodeMap(ld.nodes), sorted)
    ensures Loadable(LoadedGraph(ld, sorted)) && EndSurvives(LoadedGraph(ld, sorted))
  {
    hide Reachable, Mirrors, LoadRead, SortedNodes, ReadAs, NodeMap, ChildIndex, DepMap, Acyclic, PlainParents;
    var h := LoadedGraph(ld, sorted);
    LoadKeepsGraph(quads, g, ld);
    ReachableLoadable(g);
    ReachableInv(g);
    SortedAcyclic(h.nodes, sorted);
    forall id | id in h.nodes ensures h.nodes[id].id == id && LoadableNode(h, h.nodes[id]) {
      assert LoadableNode(g, g.nodes[id]);
      ReadBasics(g.nodes[id], h.nodes[id]);
      ReadParents(g.nodes[id], h.nodes[id]);
    }
  }

  lemma SortedAcyclic(m: map<ID, Node>, sorted: seq<Node>)
    requires SortedNodes(m, sorted)
    ensures Acyclic(DepMap(m))
  {
    OrderedIsAcyclic(DepMap(m), IDs(sorted));
  }

  /** r is what a reader receives of the stored node n: the wire projection of a possible read. */
  ghost predicate ArrivesAs(n: Node, r: Node) {
    exists m :: ReadAs(n, m) && r == WireNode(m)
  }

  /**
   What of a node arrives: identity, session, time, plain parents as a set, and the message when its parts set one
   field each.
   */
  lemma ArrivalKeeps(n: Node, r: Node)
    requires ArrivesAs(n, r) && n.message.Valid()
    ensures r.id == n.id && r.sessionID == n.sessionID && r.timestamp == n.timestamp
    ensures PlainParents(n) ==> forall p :: p in r.Parents() <==> p in n.Parents()
    ensures PlainParents(n) && |n.Parents()| <= 1 ==> r.Parents() == n.Parents()
    ensures PartsFit(n.message) ==> r.message == n.message
  {
    hide ReadAs, MessageFromProto, MessageToProto, PartsFit;
    var m :| ReadAs(n, m) && r == WireNode(m);
    ReadBasics(n, m);
    if PlainParents(n) { ReadParents(n, m); }
    Convert.NodeRoundTrip(m);
    if PlainParents(n) && |n.Parents()| <= 1 { SingleMember(n.Parents(), m.Parents()); }
  }

  /** Every node of the table arrives, each under its own ID. */
  ghost predicate TableArrives(nodes: map<ID, Node>, nodes': map<ID, Node>) {
    nodes'.Keys == nodes.Keys && forall id :: id in nodes ==> ArrivesAs(nodes[id], nodes'[id])
  }

  /**
   End to end: a graph written through to the store, loaded by the server, sent over the wire and replayed
   by the client never fails; every node arrives, and the client waits for inference and walks forward
   exactly as the writer.
   */
  lemma EndToEnd(quads: set<Quad>, g: State, ld: Loaded, sorted: seq<Node>, again: seq<Node>, id: ID)
    requires Reachable(g) && g.started && Mirrors(quads, g) && PlainTable(g.nodes) && LoadRead(quads, g.session.id, ld)
    requires SortedNodes(NodeMap(ld.nodes), sorted)
    requires SortedNodes(LoadedGraph(ld, sorted).nodes, again)
    ensures var r := Restore(OverTheWire(SynthLog(LoadedGraph(ld, sorted), again)));
      && r.Ok? && r.value.session == g.session && TableArrives(g.nodes, r.value.nodes)
      && r.value.closed == g.closed && r.value.terminalNodeID == g.terminalNodeID && r.value.endReason == g.endReason
      && (Pending(r.value, id) <==> Pending(g, id))
      && forall to, n: nat :: AdvancesTo(r.value.children, id, to, n) <==> AdvancesTo(g.children, id, to, n)
  {
    hide Reachable, Mirrors, PlainTable, LoadRead, SortedNodes, TableArrives, Pending, AdvancesTo;
    var h := LoadedGraph(ld, sorted);
    StoredIsLoadable(quads, g, ld, sorted);
    LoadSucceeds(h, again);
    ReceivedState(quads, g, ld, sorted, again);
    ReceivedBehaviour(quads, g, ld, sorted, again, id);
  }

  lemma TableArrivesAt(nodes: map<ID, Node>, nodes': map<ID, Node>, id: ID)
    requires TableArrives(nodes, nodes') && id in nodes
    ensures id in nodes' && ArrivesAs(nodes[id], nodes'[id])
  {
  }

  lemma {:induction false} LineageArrives(nodes: map<ID, Node>, nodes': map<ID, Node>, id: ID, l: seq<Node>)
    returns (l': seq<Node>)
    requires TableArrives(nodes, nodes') && PlainTable(nodes) && IsLineage(nodes, id, l)
    requires forall i :: 0 <= i < |l| ==> |l[i].Parents()| <= 1 && l[i].message.Valid()
    ensures IsLineage(nodes', id, l') && |l'| == |l| && forall i :: 0 <= i < |l| ==> ArrivesAs(l[i], l'[i])
    decreases |l|
  {
    hide ArrivesAs, TableArrives, ParentIDs;
    var n := nodes[id];
    assert n == l[|l| - 1];
    TableArrivesAt(nodes, nodes', id);
    ArrivalKeeps(n, nodes'[id]);
    if n.Parents() == [] {
      l' := [nodes'[id]];
    } else {
      assert forall i :: 0 <= i < |l| - 1 ==> l[..|l| - 1][i] == l[i];
      var above := LineageArrives(nodes, nodes', n.Parents()[0], l[..|l| - 1]);
      l' := above + [nodes'[id]];
      LineageExtends(nodes', id, above);
    }
  }

  /**
   Lineages without a second parent arrive node for node, hence with their IDs, and their messages when the parts
   fit.
   */
  lemma EndToEndLineage(quads: set<Quad>, g: State, ld: Loaded, sorted: seq<Node>, again: seq<Node>, id: ID,
                        l: seq<Node>)
    returns (l': seq<Node>)
    requires Reachable(g) && g.started && Mirrors(quads, g) && PlainTable(g.nodes) && LoadRead(quads, g.session.id, ld)
    requires SortedNodes(NodeMap(ld.nodes), sorted)
    requires SortedNodes(LoadedGraph(ld, sorted).nodes, again)
    requires IsLineage(g.nodes, id, l) && forall i :: 0 <= i < |l| ==> |l[i].Parents()| <= 1
    ensures var r := Restore(OverTheWire(SynthLog(LoadedGraph(ld, sorted), again)));
      r.Ok? && IsLineage(r.value.nodes, id, l') && |l'| == |l|
    ensures forall i :: 0 <= i < |l| ==>
      l'[i].id == l[i].id && (PartsFit(l[i].message) ==> l'[i].message == l[i].message)
  {
    hide Mirrors, PlainTable, LoadRead, SortedNodes, TableArrives, ArrivesAs, PartsFit, Reachable;
    EndToEnd(quads, g, ld, sorted, again, id);
    ReachableLoadable(g);
    forall i | 0 <= i < |l| ensures l[i].message.Valid() { LineageLoadable(g, id, l, i); }
    var r := Restore(OverTheWire(SynthLog(LoadedGraph(ld, sorted), again)));
    l' := LineageArrives(g.nodes, r.value.nodes, id, l);
    forall i | 0 <= i < |l| ensures l'[i].id == l[i].id && (PartsFit(l[i].message) ==> l'[i].message == l[i].message) {
      ArrivalKeeps(l[i], l'[i]);
    }
  }

  lemma ReceivedState(quads: set<Quad>, g: State, ld: Loaded, sorted: seq<Node>, again: seq<Node>)
    requires Reachable(g) && g.started && Mirrors(quads, g) && PlainTable(g.nodes) && LoadRead(quads, g.session.id, ld)
    requires SortedNodes(NodeMap(ld.nodes), sorted)
    requires SortedNodes(LoadedGraph(ld, sorted).nodes, again)
    ensures var r := Received(LoadedGraph(ld, sorted), again);
      && r.session == g.session && TableArrives(g.nodes, r.nodes)
      && r.closed == g.closed && r.terminalNodeID == g.terminalNodeID && r.endReason == g.endReason
  {
    hide Reachable, Mirrors, PlainTable, LoadRead, SortedNodes, Loadable, NodeMap, ChildIndex, WireNodes;
    StoredIsLoadable(quads, g, ld, sorted);
    LoadKeepsGraph(quads, g, ld);
    ReceivedNodes(LoadedGraph(ld, sorted), again);
    ReachableInv(g);
    forall id | id in g.nodes ensures ArrivesAs(g.nodes[id], Received(LoadedGraph(ld, sorted), again).nodes[id]) {
      assert ReadAs(g.nodes[id], NodeMap(ld.nodes)[id]);
    }
  }

  lemma ReceivedBehaviour(quads: set<Quad>, g: State, ld: Loaded, sorted: seq<Node>, again: seq<Node>, id: ID)
    requires Reachable(g) && g.started && Mirrors(quads, g) && PlainTable(g.nodes) && LoadRead(quads, g.session.id, ld)
    requires SortedNodes(NodeMap(ld.nodes), sorted)
    requires SortedNodes(LoadedGraph(ld, sorted).nodes, again)
    ensures Pending(Received(LoadedGraph(ld, sorted), again), id) <==> Pending(g, id)
    ensures forall to, n: nat ::
      AdvancesTo(Received(LoadedGraph(ld, sorted), again).children, id, to, n) <==> AdvancesTo(g.children, id, to, n)
  {
    hide Reachable, Mirrors, LoadRead, SortedNodes, ReadAs, PlainTable, NodeMap, ChildIndex, WireNodes, Acyclic, DepMap;
    var h := LoadedGraph(ld, sorted);
    var r := Received(h, again);
    StoredIsLoadable(quads, g, ld, sorted);
    StoreTheorems.LoadKeepsBehaviour(quads, g, ld, sorted, id);
    LoadKeepsGraph(quads, g, ld);
    LoadedInverse(g.nodes, h.nodes, sorted);
    ReceivedNodes(h, again);
    ReceivedInverse(h, again);
    if id in h.nodes {
      assert LoadableNode(h, h.nodes[id]);
      Convert.NodeRoundTrip(h.nodes[id]);
    }
    SamePending(h, r, id);
    forall to, n: nat ensures AdvancesTo(r.children, id, to, n) <==> AdvancesTo(h.children, id, to, n) {
      SameAdvance(h.nodes, h.children, r.nodes, r.children, id, to, n);
    }
  }
}
