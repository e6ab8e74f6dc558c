/**
 What every run of a session graph keeps: the node table, the children index, the head
 and the log are four views of one append order.
 */
module GraphInvariant {
  import opened Types
  import opened Sequences
  import opened GraphState

  // ----- the append order and what it determines -----

  /** The nodes of the log, in emission order. */
  function AppendOrder(events: seq<Event>): seq<Node> {
    if events == [] then []
    else
      var before := AppendOrder(events[..|events| - 1]);
      match events[|events| - 1].node
      case None => before
      case Some(n) => before + [n]
  }

  ghost predicate Before(ns: seq<Node>, k: int, id: ID) {
    exists j :: 0 <= j < k && j < |ns| && ns[j].id == id
  }

  /**
   Node k has an ID neither used nor named before, exactly the first node is a root, and parents were appended
   strictly earlier.
   */
  ghost predicate WellPlaced(sid: ID, ns: seq<Node>, k: nat)
    requires k < |ns|
  {
    var n := ns[k];
    && n.id != NO_ID && n.sessionID == sid && n.message.Valid()
    && !Before(ns, k, n.id)
    && (forall i :: 0 <= i <= k ==> Unnamed(ns[i].edges, n.id))
    && Distinct(n.Parents())
    && (n.Parents() == [] <==> k == 0)
    && forall p :: p in n.Parents() ==> Before(ns, k, p)
  }

  ghost predicate WellOrdered(sid: ID, ns: seq<Node>) {
    forall k :: 0 <= k < |ns| ==> WellPlaced(sid, ns, k)
  }

  function NodeMap(ns: seq<Node>): map<ID, Node> {
    if ns == [] then map[] else NodeMap(ns[..|ns| - 1])[ns[|ns| - 1].id := ns[|ns| - 1]]
  }

  function ChildIndex(ns: seq<Node>): map<ID, seq<ID>> {
    if ns == [] then map[]
    else
      var n := ns[|ns| - 1];
      LinkParents(ChildIndex(ns[..|ns| - 1]), n.Parents(), n.id)
  }

  function LastID(ns: seq<Node>): ID {
    if ns == [] then NO_ID else ns[|ns| - 1].id
  }

  function NodeEvents(sid: ID, names: EventNames, ns: seq<Node>): seq<Event> {
    seq(|ns|, i requires 0 <= i < |ns| => NodeEvent(sid, names, ns[i]))
  }

  /** The only shape a log can have: start, appended nodes, and at most one end. */
  function Log(g: State, ns: seq<Node>, ended: Time): seq<Event> {
    if !g.started then []
    else
      [StartEvent(g.session, g.eventNames)] + NodeEvents(g.session.id, g.eventNames, ns)
      + (if g.closed then [EndEvent(g.session.id, g.eventNames, ended, g.headID, g.endReason)] else [])
  }

  /** The views agree on the append order ns. */
  ghost predicate Agrees(g: State, ns: seq<Node>, ended: Time) {
    && g.session.id != NO_ID
    && WellOrdered(g.session.id, ns)
    && g.nodes == NodeMap(ns)
    && g.children == ChildIndex(ns)
    && g.headID == LastID(ns)
    && g.events == Log(g, ns, ended)
    && (!g.started ==> ns == [] && !g.closed)
    && (if g.closed then g.terminalNodeID == g.headID && g.endReason in {REASON_COMPLETE, REASON_FAILED}
        else g.terminalNodeID == NO_ID && g.endReason == "")
  }

  ghost predicate Inv(g: State) {
    exists ended :: Agrees(g, AppendOrder(g.events), ended)
  }

  // ----- facts about the views -----

  lemma {:induction false} ParentIDsConcat(a: seq<EdgeRef>, b: seq<EdgeRef>)
    ensures ParentIDs(a + b) == ParentIDs(a) + ParentIDs(b)
  {
    if b == [] {
      assert a + b == a;
    } else {
      assert (a + b)[..|a + b| - 1] == a + b[..|b| - 1];
      ParentIDsConcat(a, b[..|b| - 1]);
    }
  }

  lemma {:induction false} NoParentEdgeNoParentIDs(edges: seq<EdgeRef>)
    ensures NoParentEdge(edges) <==> ParentIDs(edges) == []
  {
    if edges != [] {
      NoParentEdgeNoParentIDs(edges[..|edges| - 1]);
      assert edges == edges[..|edges| - 1] + [edges[|edges| - 1]];
    }
  }

  lemma {:induction false} ParentIDsOfParentEdges(parents: seq<ID>)
    ensures ParentIDs(ParentEdges(parents)) == parents
  {
    if parents != [] {
      assert ParentEdges(parents)[..|parents| - 1] == ParentEdges(parents[..|parents| - 1]);
      ParentIDsOfParentEdges(parents[..|parents| - 1]);
    } else {
      assert ParentEdges(parents) == [];
    }
  }

  /** Validation keeps each distinct existing reference once, in first-seen order. */
  lemma {:induction false} ValidatedReferences(nodes: map<ID, Node>, ids: seq<ID>)
    ensures var r := ValidateReferences(nodes, ids);
      if r.Ok? then
        && (forall id :: id in r.value <==> id in ids)
        && (forall id :: id in ids ==> id in nodes && id != NO_ID)
        && Distinct(r.value)
      else exists id :: id in ids && (id == NO_ID || id !in nodes)
  {
    if ids != [] {
      var before, last := ids[..|ids| - 1], ids[|ids| - 1];
      assert ids == before + [last];
      ValidatedReferences(nodes, before);
      var r := ValidateReferences(nodes, before);
      if r.Err? {
        var id :| id in before && (id == NO_ID || id !in nodes);
        assert id in ids;
      } else if last == NO_ID || last !in nodes {
        assert last in ids;
      }
    }
  }

  lemma ViewsExtend(ns: seq<Node>, n: Node)
    ensures NodeMap(ns + [n]) == NodeMap(ns)[n.id := n]
    ensures ChildIndex(ns + [n]) == LinkParents(ChildIndex(ns), n.Parents(), n.id)
    ensures LastID(ns + [n]) == n.id
  {
    assert (ns + [n])[..|ns|] == ns;
  }

  lemma BeforeLast(ns: seq<Node>, id: ID)
    requires ns != []
    ensures var m := |ns| - 1; Before(ns, |ns|, id) <==> Before(ns[..m], m, id) || ns[m].id == id
  {
    var m := |ns| - 1;
    if Before(ns[..m], m, id) {
      var j :| 0 <= j < m && ns[..m][j].id == id;
      assert ns[j].id == id;
    }
    if Before(ns, |ns|, id) && ns[m].id != id {
      var j :| 0 <= j < |ns| && ns[j].id == id;
      assert ns[..m][j].id == id;
    }
  }

  /** The node table holds exactly the appended IDs, each under its own ID. */
  lemma {:induction false} NodeMapKeys(ns: seq<Node>)
    ensures forall id :: id in NodeMap(ns) <==> Before(ns, |ns|, id)
    ensures forall id :: id in NodeMap(ns) ==> NodeMap(ns)[id].id == id
  {
    if ns != [] {
      NodeMapKeys(ns[..|ns| - 1]);
      forall id { BeforeLast(ns, id); }
    }
  }

  lemma {:induction false} NodeMapLookup(ns: seq<Node>, k: nat)
    requires k < |ns|
    requires forall i, j :: 0 <= i < j < |ns| ==> ns[i].id != ns[j].id
    ensures ns[k].id in NodeMap(ns) && NodeMap(ns)[ns[k].id] == ns[k]
  {
    if k < |ns| - 1 {
      NodeMapLookup(ns[..|ns| - 1], k);
    }
  }

  lemma WellOrderedDistinct(sid: ID, ns: seq<Node>)
    requires WellOrdered(sid, ns)
    ensures forall i, j :: 0 <= i < j < |ns| ==> ns[i].id != ns[j].id
  {
    forall i, j | 0 <= i < j < |ns| ensures ns[i].id != ns[j].id {
      assert WellPlaced(sid, ns, j);
    }
  }

  lemma WellOrderedExtend(sid: ID, ns: seq<Node>, n: Node)
    requires WellOrdered(sid, ns)
    requires n.id != NO_ID && n.sessionID == sid && n.message.Valid() && !Before(ns, |ns|, n.id)
    requires Unnamed(n.edges, n.id) && forall i :: 0 <= i < |ns| ==> Unnamed(ns[i].edges, n.id)
    requires Distinct(n.Parents()) && (n.Parents() == [] <==> ns == [])
    requires forall p :: p in n.Parents() ==> Before(ns, |ns|, p)
    ensures WellOrdered(sid, ns + [n])
  {
    var all := ns + [n];
    forall k | 0 <= k < |all| ensures WellPlaced(sid, all, k) {
      if k < |ns| {
        assert WellPlaced(sid, ns, k);
      }
      forall p | Before(ns, k, p) ensures Before(all, k, p) {
        var j :| 0 <= j < k && j < |ns| && ns[j].id == p;
        assert all[j].id == p;
      }
    }
  }

  lemma {:induction false} AppendOrderConcat(a: seq<Event>, b: seq<Event>)
    ensures AppendOrder(a + b) == AppendOrder(a) + AppendOrder(b)
  {
    if b == [] {
      assert a + b == a;
    } else {
      assert (a + b)[..|a + b| - 1] == a + b[..|b| - 1];
      AppendOrderConcat(a, b[..|b| - 1]);
    }
  }

  lemma {:induction false} AppendOrderNodeEvents(sid: ID, names: EventNames, ns: seq<Node>)
    ensures AppendOrder(NodeEvents(sid, names, ns)) == ns
  {
    if ns != [] {
      assert NodeEvents(sid, names, ns)[..|ns| - 1] == NodeEvents(sid, names, ns[..|ns| - 1]);
      AppendOrderNodeEvents(sid, names, ns[..|ns| - 1]);
    }
  }

  lemma AppendOrderLog(g: State, ns: seq<Node>, ended: Time)
    requires !g.started ==> ns == []
    ensures AppendOrder(Log(g, ns, ended)) == ns
  {
    hide AppendOrder, NodeEvents;
    NoEventsNoNodes();
    if g.started {
      var head := [StartEvent(g.session, g.eventNames)];
      var mid := NodeEvents(g.session.id, g.eventNames, ns);
      var tail := if g.closed then [EndEvent(g.session.id, g.eventNames, ended, g.headID, g.endReason)] else [];
      AppendOrderConcat(head + mid, tail);
      AppendOrderConcat(head, mid);
      AppendOrderNodeEvents(g.session.id, g.eventNames, ns);
      NoNodeIn(head[0]);
      if g.closed { NoNodeIn(tail[0]); }
    }
  }

  lemma NoEventsNoNodes()
    ensures AppendOrder([]) == []
  {
  }

  lemma NoNodeIn(e: Event)
    requires e.node.None?
    ensures AppendOrder([e]) == []
  {
    assert [e][..0] == [];
  }

  // ----- every step keeps the invariant -----

  /** A node that may follow ns. */
  ghost predicate Appendable(g: State, n: Node) {
    && g.started && !g.closed
    && Fresh(g, n.id) && Unnamed(n.edges, n.id)
    && n.sessionID == g.session.id && n.message.Valid()
    && Distinct(n.Parents())
    && (n.Parents() == [] <==> g.nodes == map[])
    && forall p :: p in n.Parents() ==> p in g.nodes
  }

  lemma EmptyNodeMap(ns: seq<Node>)
    ensures NodeMap(ns) == map[] <==> ns == []
  {
    if ns != [] { assert ns[|ns| - 1].id in NodeMap(ns); }
  }

  lemma NodeEventsExtend(sid: ID, names: EventNames, ns: seq<Node>, n: Node)
    ensures NodeEvents(sid, names, ns + [n]) == NodeEvents(sid, names, ns) + [NodeEvent(sid, names, n)]
  {
  }

  lemma LogExtend(g: State, ns: seq<Node>, ended: Time, n: Node)
    requires g.started && !g.closed && g.events == Log(g, ns, ended)
    ensures AddNode(g, n).events == Log(AddNode(g, n), ns + [n], ended)
  {
    hide NodeEvents, LinkParents;
    NodeEventsExtend(g.session.id, g.eventNames, ns, n);
    var head, mid := [StartEvent(g.session, g.eventNames)], NodeEvents(g.session.id, g.eventNames, ns);
    var e := NodeEvent(g.session.id, g.eventNames, n);
    assert (head + mid + []) + [e] == head + (mid + [e]) + [];
  }

  lemma AddNodeAgrees(g: State, ns: seq<Node>, ended: Time, n: Node)
    requires Agrees(g, ns, ended) && Appendable(g, n)
    ensures Agrees(AddNode(g, n), ns + [n], ended)
  {
    hide NodeMap, ChildIndex, WellOrdered, WellPlaced, Unnamed, ParentIDs, Distinct;
    NodeMapKeys(ns);
    EmptyNodeMap(ns);
    WellOrderedDistinct(g.session.id, ns);
    forall i | 0 <= i < |ns| ensures Unnamed(ns[i].edges, n.id) {
      NodeMapLookup(ns, i);
    }
    WellOrderedExtend(g.session.id, ns, n);
    ViewsExtend(ns, n);
    LogExtend(g, ns, ended, n);
  }

  /** What a call that appends does: nothing, or it adds one acceptable node made from its arguments. */
  ghost predicate AppendsOne(g: State, message: Message, parents: seq<ID>, id: ID, now: Time, g': State, out: Outcome) {
    if out.Failed? then g' == g
    else out.Appended? && g' == AddNode(g, out.node) && Appendable(g, out.node)
         && out.node.id == id && out.node.timestamp == now && out.node.message == message
         && (forall p :: p in out.node.Parents() <==> p in parents)
         && (out.node.Parents() == [] <==> parents == [])
  }

  lemma PlainAppendShape(g: State, message: Message, parents: seq<ID>, id: ID, now: Time)
    requires Fresh(g, id)
    ensures var (g', out) := Append(g, message, parents, id, now); AppendsOne(g, message, parents, id, now, g', out)
  {
    ValidatedReferences(g.nodes, parents);
    var check := AppendCheck(g, message, parents);
    if check.Ok? {
      ParentIDsOfParentEdges(check.value);
      assert parents == [] <==> check.value == [] by {
        if parents != [] { assert parents[0] in check.value; }
        if check.value != [] { assert check.value[0] in parents; }
      }
      assert check.value == [] <==> g.nodes == map[] by {
        if check.value != [] { assert check.value[0] in g.nodes; }
      }
    }
  }

  lemma TypedAppendShape(g: State, op: Op)
    requires op.TypedOp? && Admissible(g, op)
    ensures var (g', out) := Step(g, op); AppendsOne(g, op.message, op.parents, op.id, op.now, g', out)
  {
    PlainAppendShape(g, op.message, op.parents, op.id, op.now);
    var plain := Append(g, op.message, op.parents, op.id, op.now).1;
    if plain.Appended? {
      var n := Decorate(plain.node, op.kind, op.extra, op.content);
      DecorateKeepsParents(plain.node, op.kind, op.extra, op.content);
      assert n.edges == plain.node.edges + op.extra;
      ReplaceLastAddNode(g, plain.node, n);
    }
  }

  /** A successful append, plain or typed, adds one acceptable node and changes nothing else. */
  lemma AppendShape(g: State, op: Op)
    requires op.AppendOp? || op.TypedOp?
    requires Admissible(g, op)
    ensures var (g', out) := Step(g, op); AppendsOne(g, op.message, op.parents, op.id, op.now, g', out)
  {
    if op.TypedOp? { TypedAppendShape(g, op); } else { PlainAppendShape(g, op.message, op.parents, op.id, op.now); }
  }

  lemma DecorateKeepsParents(n: Node, kind: string, extra: seq<EdgeRef>, content: Content)
    ensures Decorate(n, kind, extra, content).Parents() == n.Parents() + ParentIDs(extra)
    ensures NoParentEdge(extra) ==> Decorate(n, kind, extra, content).Parents() == n.Parents()
  {
    ParentIDsConcat(n.edges, extra);
    NoParentEdgeNoParentIDs(extra);
  }

  lemma ReplaceLastAddNode(g: State, plain: Node, n: Node)
    requires n.id == plain.id && n.timestamp == plain.timestamp && n.Parents() == plain.Parents()
    ensures ReplaceLast(AddNode(g, plain), n) == AddNode(g, n)
  {
    var a, b := ReplaceLast(AddNode(g, plain), n), AddNode(g, n);
    assert a.nodes == b.nodes;
    assert a.events == b.events;
  }

  lemma StepKeepsInv(g: State, op: Op)
    requires Inv(g) && Admissible(g, op)
    ensures Inv(Step(g, op).0)
  {
    var ns := AppendOrder(g.events);
    var ended :| Agrees(g, ns, ended);
    var (g', out) := Step(g, op);
    if out.Failed? {
      if op.AppendOp? || op.TypedOp? { AppendShape(g, op); }
    } else if op.AppendOp? || op.TypedOp? {
      AppendShape(g, op);
      AddNodeAgrees(g, ns, ended, out.node);
      AppendOrderLog(g', ns + [out.node], ended);
    } else if op.StartOp? {
      assert Agrees(g', ns, ended);
      AppendOrderLog(g', ns, ended);
    } else {
      assert Agrees(g', ns, op.now);
      AppendOrderLog(g', ns, op.now);
    }
  }

  lemma {:induction false} RunKeepsInv(g: State, ops: seq<Op>)
    requires Inv(g) && AdmissibleRun(g, ops)
    ensures Inv(Run(g, ops))
  {
    if ops != [] {
      var before := ops[..|ops| - 1];
      forall i | 0 <= i < |before| ensures Admissible(Run(g, before[..i]), before[i]) {
        assert before[..i] == ops[..i];
        assert Admissible(Run(g, ops[..i]), ops[i]);
      }
      RunKeepsInv(g, before);
      StepKeepsInv(Run(g, before), ops[|ops| - 1]);
    }
  }

  lemma ReachableInv(g: State)
    requires Reachable(g)
    ensures Inv(g)
  {
    var id: ID, spawned, names, ops :|
      id != NO_ID && AdmissibleRun(NewGraph(id, spawned, names), ops) && g == Run(NewGraph(id, spawned, names), ops);
    var g0 := NewGraph(id, spawned, names);
    assert Agrees(g0, AppendOrder(g0.events), 0);
    RunKeepsInv(g0, ops);
  }

  /** Reachable states are closed under admissible calls. */
  lemma ReachableStep(g: State, op: Op)
    requires Reachable(g) && Admissible(g, op)
    ensures Reachable(Step(g, op).0)
  {
    var id: ID, spawned, names, ops :|
      id != NO_ID && AdmissibleRun(NewGraph(id, spawned, names), ops) && g == Run(NewGraph(id, spawned, names), ops);
    var g0 := NewGraph(id, spawned, names);
    var longer := ops + [op];
    assert longer[..|ops|] == ops;
    forall i | 0 <= i < |longer| ensures Admissible(Run(g0, longer[..i]), longer[i]) {
      if i < |ops| {
        assert longer[..i] == ops[..i];
        assert Admissible(Run(g0, ops[..i]), ops[i]);
      }
    }
    assert Run(g0, longer) == Step(g, op).0;
  }

  lemma NewGraphReachable(id: ID, spawned: Option<SpawnReference>, names: EventNames)
    requires id != NO_ID
    ensures Reachable(NewGraph(id, spawned, names))
  {
    assert AdmissibleRun(NewGraph(id, spawned, names), []);
    assert Run(NewGraph(id, spawned, names), []) == NewGraph(id, spawned, names);
  }
}
