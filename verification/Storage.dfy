/** Rebuilding a graph from an unordered bag of nodes, and turning a graph back into an event log. */
module Storage {
  import opened Types
  import opened GraphState
  import opened GraphInvariant
  import opened GraphTheorems
  import opened TopoOrder
  import opened TopoSort
  import opened EventFields
  import SessionGraph

  // ----- specification -----

  function FromSorted(sess: Session, nodes: map<ID, Node>, sorted: seq<Node>, headID: ID,
                      status: SessionStatus, reason: string, terminal: ID): State
  {
    State(sess, DEFAULT_NAMES, nodes, ChildIndex(sorted), [], headID,
          if status.StatusClosed? then terminal else NO_ID, if status.StatusClosed? then reason else "",
          true, status.StatusClosed?)
  }

  function SynthNames(g: State): EventNames {
    if g.eventNames.sessionStart == "" then DEFAULT_NAMES else g.eventNames
  }

  function SynthLog(g: State, sorted: seq<Node>): seq<Event> {
    [StartEvent(g.session, SynthNames(g))] + NodeEvents(g.session.id, SynthNames(g), sorted)
    + (if g.closed
       then [EndEvent(g.session.id, SynthNames(g), g.session.timestamp, g.terminalNodeID, g.endReason)]
       else [])
  }

  /** Every parent of a stored node is stored. */
  ghost predicate ParentsStored(m: map<ID, Node>) {
    forall id, p :: id in m && p in m[id].Parents() ==> p in m
  }

  /**
   What the comment on RestoreFromNodes asks for: an error for a missing parent, an error for a cycle, and no
   other.
   */
  ghost predicate AsDocumented(m: map<ID, Node>, accepted: bool) {
    accepted <==> ParentsStored(m) && Acyclic(DepMap(m))
  }

  // ----- RestoreFromNodes and SynthesizeEvents -----

  method IndexByID(nodes: seq<Node>) returns (m: map<ID, Node>)
    ensures m == NodeMap(nodes)
  {
    m := map[];
    for i := 0 to |nodes|
      invariant m == NodeMap(nodes[..i])
    {
      assert nodes[..i + 1][..i] == nodes[..i];
      m := m[nodes[i].id := nodes[i]];
    }
    assert nodes[..|nodes|] == nodes;
  }

  /** Wires sorted nodes into a graph that has none, parents first. */
  method InstallNodes(g: SessionGraph.Graph, sorted: seq<Node>)
    requires g.nodes == map[] && g.children == map[]
    modifies g
    ensures g.Value() == old(g.Value()).(nodes := NodeMap(sorted), children := ChildIndex(sorted))
  {
    for i := 0 to |sorted|
      invariant g.Value() == old(g.Value()).(nodes := NodeMap(sorted[..i]), children := ChildIndex(sorted[..i]))
    {
      assert sorted[..i + 1] == sorted[..i] + [sorted[i]];
      ViewsExtend(sorted[..i], sorted[i]);
      var n := sorted[i];
      g.nodes := g.nodes[n.id := n];
      var parents := CollectParents(n.edges);
      g.IndexChild(parents, n.id);
    }
    assert sorted[..|sorted|] == sorted;
  }

  method RestoreFromNodes(sess: Session, nodes: seq<Node>, headID: ID, status: SessionStatus, reason: string,
                          terminal: ID)
    returns (r: Result<SessionGraph.Graph, Error>, ghost sorted: seq<Node>)
    ensures r.Ok? <==> Acyclic(DepMap(NodeMap(nodes)))
    ensures AsDocumented(NodeMap(nodes), r.Ok?) <==> !Acyclic(DepMap(NodeMap(nodes))) || ParentsStored(NodeMap(nodes))
    ensures r.Err? ==> r.error == CycleDetected
    ensures r.Ok? ==>
      && fresh(r.value) && SortedNodes(NodeMap(nodes), sorted)
      && TargetsFirst(NodeMap(nodes), sorted) && OlderFirst(NodeMap(nodes), sorted)
      && r.value.Value() == FromSorted(sess, NodeMap(nodes), sorted, headID, status, reason, terminal)
      && r.value.session == sess && r.value.nodes == NodeMap(nodes) && r.value.headID == headID && r.value.started
      && r.value.events == [] && r.value.eventNames == DEFAULT_NAMES
      && (status.StatusClosed? ==> r.value.closed && r.value.endReason == reason && r.value.terminalNodeID == terminal)
      && (status.StatusOpen? ==> !r.value.closed && r.value.endReason == "" && r.value.terminalNodeID == NO_ID)
  {
    hide Acyclic, DepMap, ParentsStored, SortedNodes, NodeMap, ChildIndex, FifoOrder, Stalled;
    hide TargetsFirst, OlderFirst;
    var nodeMap := IndexByID(nodes);
    NodeMapKeys(nodes);
    sorted := [];
    var order, _ := TopoSortNodes(nodeMap);
    if order.Err? { return Err(order.error), []; }
    sorted := order.value;
    SortedNodeMap(nodeMap, sorted);
    EmptyViews();
    var graph := new SessionGraph.Graph(sess.id, sess.spawnedFrom, DEFAULT_NAMES);
    graph.session, graph.started, graph.headID := sess, true, headID;
    InstallNodes(graph, order.value);
    if status.StatusClosed? {
      graph.closed := true;
      graph.endReason := reason;
      graph.terminalNodeID := terminal;
    }
    r := Ok(graph);
  }

  lemma EmptyViews()
    ensures NodeMap([]) == map[] && ChildIndex([]) == map[]
  {
  }

  /** The stored nodes in sorted order make up the whole table again. */
  lemma SortedNodeMap(m: map<ID, Node>, sorted: seq<Node>)
    requires SortedNodes(m, sorted)
    ensures NodeMap(sorted) == m
  {
    hide NodeMap, FifoOrder, DepMap;
    SortedKeys(m, sorted);
    SortedDistinct(m, sorted);
    forall id | id in m ensures NodeMap(sorted)[id] == m[id] {
      var k := IndexIn(IDs(sorted), id);
      NodeMapLookup(sorted, k);
      assert sorted[k] in sorted;
    }
  }

  lemma SortedIDs(m: map<ID, Node>, sorted: seq<Node>)
    requires SortedNodes(m, sorted)
    ensures forall id :: id in IDs(sorted) <==> id in m
  {
    hide DepsEarlier, Layered;
  }

  lemma SortedKeys(m: map<ID, Node>, sorted: seq<Node>)
    requires SortedNodes(m, sorted)
    ensures NodeMap(sorted).Keys == m.Keys
    ensures forall id :: id in m ==> id in IDs(sorted)
  {
    hide NodeMap, DepMap, FifoOrder;
    SortedIDs(m, sorted);
    NodeMapKeys(sorted);
    forall id ensures id in NodeMap(sorted) <==> id in m {
      if id in m {
        assert id in IDs(sorted);
        var k := IndexIn(IDs(sorted), id);
        assert sorted[k].id == id;
      }
      if Before(sorted, |sorted|, id) {
        var k :| 0 <= k < |sorted| && sorted[k].id == id;
        assert IDs(sorted)[k] in IDs(sorted);
      }
    }
  }

  lemma SortedDistinct(m: map<ID, Node>, sorted: seq<Node>)
    requires SortedNodes(m, sorted)
    ensures forall i, j :: 0 <= i < j < |sorted| ==> sorted[i].id != sorted[j].id
  {
    forall i, j | 0 <= i < j < |sorted| ensures sorted[i].id != sorted[j].id {
      assert IDs(sorted)[i] != IDs(sorted)[j];
    }
  }

  method EventsOf(sid: ID, names: EventNames, nodes: seq<Node>) returns (events: seq<Event>)
    ensures events == NodeEvents(sid, names, nodes)
  {
    events := [];
    for i := 0 to |nodes|
      invariant |events| == i && forall k :: 0 <= k < i ==> events[k] == NodeEvent(sid, names, nodes[k])
    {
      events := events + [NodeEvent(sid, names, nodes[i])];
    }
  }

  lemma NothingToOrder(m: map<ID, Node>)
    ensures TargetsFirst(m, []) && OlderFirst(m, [])
  {
  }

  /** The synthesized log opens the session, carries the sorted nodes, and ends the session when it is closed. */
  ghost predicate SynthCarries(log: seq<Event>, g: State, sorted: seq<Node>) {
    var names := if g.eventNames.sessionStart == "" then DEFAULT_NAMES else g.eventNames;
    && LogCarries(log, g.session, sorted, names, if g.closed then 1 else 0)
    && (g.closed ==> Ends(log[|log| - 1], g.session.id, g.session.timestamp, g.terminalNodeID, g.endReason,
                          names.sessionEnded))
  }

  lemma SynthLogCarries(g: State, sorted: seq<Node>)
    ensures SynthCarries(SynthLog(g, sorted), g, sorted)
  {
  }

  /** A cyclic graph yields a log without nodes: the sort's error is dropped. */
  method SynthesizeEvents(g: SessionGraph.Graph) returns (events: seq<Event>, ghost sorted: seq<Node>)
    requires Keyed(g.nodes)
    ensures events == SynthLog(g.Value(), sorted) && SynthCarries(events, g.Value(), sorted)
    ensures if Acyclic(DepMap(g.nodes)) then SortedNodes(g.nodes, sorted) else sorted == []
    ensures TargetsFirst(g.nodes, sorted) && OlderFirst(g.nodes, sorted)
  {
    hide Acyclic, DepMap, SortedNodes, TargetsFirst, OlderFirst, IsCycle, Stalled, SynthCarries, NodeEvents;
    NothingToOrder(g.nodes);
    var names := g.eventNames;
    if names.sessionStart == "" { names := DEFAULT_NAMES; }
    events := [StartEvent(g.session, names)];
    var order, _ := TopoSortNodes(g.nodes);
    var nodes := if order.Ok? then order.value else [];
    sorted := nodes;
    var appended := EventsOf(g.session.id, names, nodes);
    events := events + appended;
    if g.closed {
      events := events + [EndEvent(g.session.id, names, g.session.timestamp, g.terminalNodeID, g.endReason)];
    }
    SynthLogCarries(g.Value(), sorted);
  }

  // ----- reachable graphs are acyclic -----

  lemma ParentIsDependency(m: map<ID, Node>, id: ID, p: ID)
    requires id in m && p in m[id].Parents() && p in m
    ensures p in DepMap(m)[id]
  {
    ParentIDsMembers(m[id].edges, p);
    var e :| e in m[id].edges && e.kind == PARENT && e.nodeID == p;
    assert IsDependency(e);
    DepMember(m, id, p);
  }

  /** The append order is a topological order: parent and branch edges only name older nodes. */
  lemma AppendOrderSorts(g: State, ns: seq<Node>, ended: Time)
    requires Agrees(g, ns, ended)
    ensures DepOrder(DepMap(g.nodes), IDs(ns))
  {
    var D, s := DepMap(g.nodes), IDs(ns);
    WellOrderedDistinct(g.session.id, ns);
    NodeMapKeys(ns);
    forall x ensures x in s <==> x in D {
      if x in D {
        var k :| 0 <= k < |ns| && ns[k].id == x;
        assert s[k] == x;
      }
      if x in s {
        var k := IndexIn(s, x);
        assert ns[k].id == x;
      }
    }
    forall k | 0 <= k < |s| ensures DepsEarlier(D, s, k) {
      AgreesMember(g, ns, ended, k);
      forall d | d in D[s[k]] ensures d in s[..k] {
        DepMember(g.nodes, s[k], d);
        var e :| e in ns[k].edges && e.nodeID == d;
        var j :| 0 <= j < |ns| && ns[j].id == d;
        assert WellPlaced(g.session.id, ns, j);
        assert j < k;
        assert s[..k][j] == d;
      }
    }
  }

  lemma ReachableAcyclic(g: State)
    requires Reachable(g)
    ensures Keyed(g.nodes) && Acyclic(DepMap(g.nodes))
  {
    ReachableInv(g);
    var ns := AppendOrder(g.events);
    var ended :| Agrees(g, ns, ended);
    NodeMapKeys(ns);
    AppendOrderSorts(g, ns, ended);
    OrderedIsAcyclic(DepMap(g.nodes), IDs(ns));
  }

  // ----- the order of the input bag does not matter -----

  lemma {:induction false} NodeMapOfBag(ns: seq<Node>, n: Node)
    requires forall i, j :: 0 <= i < j < |ns| ==> ns[i].id != ns[j].id
    ensures n in multiset(ns) <==> n.id in NodeMap(ns) && NodeMap(ns)[n.id] == n
  {
    if ns != [] {
      var m := |ns| - 1;
      NodeMapOfBag(ns[..m], n);
      NodeMapKeys(ns[..m]);
      assert ns == ns[..m] + [ns[m]];
    }
  }

  lemma BagDeterminesMap(ns: seq<Node>, ns': seq<Node>)
    requires forall i, j :: 0 <= i < j < |ns| ==> ns[i].id != ns[j].id
    requires forall i, j :: 0 <= i < j < |ns'| ==> ns'[i].id != ns'[j].id
    requires multiset(ns) == multiset(ns')
    ensures NodeMap(ns) == NodeMap(ns')
  {
    NodeMapKeys(ns);
    NodeMapKeys(ns');
    forall id | id in NodeMap(ns) ensures id in NodeMap(ns') && NodeMap(ns')[id] == NodeMap(ns)[id] {
      NodeMapOfBag(ns, NodeMap(ns)[id]);
      NodeMapOfBag(ns', NodeMap(ns)[id]);
    }
    forall id | id in NodeMap(ns') ensures id in NodeMap(ns) {
      NodeMapOfBag(ns', NodeMap(ns')[id]);
      NodeMapOfBag(ns, NodeMap(ns')[id]);
    }
  }

  lemma SortedNodesUnique(m: map<ID, Node>, s: seq<Node>, t: seq<Node>)
    requires SortedNodes(m, s) && SortedNodes(m, t) && DistinctTimes(Times(m))
    ensures s == t
  {
    FifoUnique(DepMap(m), Times(m), IDs(s), IDs(t));
    assert |s| == |t|;
    forall i | 0 <= i < |s| ensures s[i] == t[i] {
      assert IDs(s)[i] == IDs(t)[i];
      assert s[i] in s && t[i] in t;
    }
  }

  /**
   With distinct IDs and timestamps, every permutation of the input and every run of the sort gives the same graph.
   */
  lemma RestoreIsDeterministic(sess: Session, ns: seq<Node>, ns': seq<Node>, s: seq<Node>, t: seq<Node>,
                               headID: ID, status: SessionStatus, reason: string, terminal: ID)
    requires forall i, j :: 0 <= i < j < |ns| ==> ns[i].id != ns[j].id
    requires forall i, j :: 0 <= i < j < |ns'| ==> ns'[i].id != ns'[j].id
    requires multiset(ns) == multiset(ns') && DistinctTimes(Times(NodeMap(ns)))
    requires SortedNodes(NodeMap(ns), s) && SortedNodes(NodeMap(ns'), t)
    ensures FromSorted(sess, NodeMap(ns), s, headID, status, reason, terminal)
         == FromSorted(sess, NodeMap(ns'), t, headID, status, reason, terminal)
  {
    BagDeterminesMap(ns, ns');
    SortedNodesUnique(NodeMap(ns), s, t);
  }
}
