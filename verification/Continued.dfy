/**
 Going on with a loaded session: a graph that is loaded from the store again and again between its calls
 does what a graph that was never unloaded does.
 */
module Continued {
  import opened Types
  import opened Sequences
  import opened GraphState
  import opened GraphInvariant
  import opened GraphTheorems
  import opened Lineage
  import opened TopoOrder
  import opened TopoSort
  import opened SessionGraph
  import opened GraphShape
  import opened Quads
  import opened CayleyStore
  import opened NodeCodec
  import opened StoreLoad
  import opened WriteThrough
  import opened StoreTheorems

  // ----- what ties a loaded graph to the one that was never unloaded -----

  /** m is the node n itself, or a read of it. */
  ghost predicate Recalls(n: Node, m: Node) {
    m == n || ReadAs(n, m)
  }

  ghost predicate TableRecalls(nodes: map<ID, Node>, nodes': map<ID, Node>) {
    nodes'.Keys == nodes.Keys && forall id :: id in nodes ==> Recalls(nodes[id], nodes'[id])
  }

  /** g has the session, ending, head and nodes of live, and an index that fits its nodes; its log may be lost. */
  ghost predicate Resumes(g: State, live: State) {
    && g.session == live.session && g.eventNames == live.eventNames && g.started && live.started
    && g.closed == live.closed && g.headID == live.headID
    && g.endReason == live.endReason && g.terminalNodeID == live.terminalNodeID
    && TableRecalls(live.nodes, g.nodes) && InverseOfParents(g.nodes, g.children)
  }

  lemma ResumesItself(g: State)
    requires Reachable(g) && g.started
    ensures Resumes(g, g)
  {
    ReachableChildren(g);
  }

  // ----- the same calls have the same outcomes -----

  lemma {:induction false} SameReferences(nodes: map<ID, Node>, nodes': map<ID, Node>, ids: seq<ID>)
    requires nodes.Keys == nodes'.Keys
    ensures ValidateReferences(nodes, ids) == ValidateReferences(nodes', ids)
  {
    if ids != [] { SameReferences(nodes, nodes', ids[..|ids| - 1]); }
  }

  lemma SameCheck(g: State, live: State, message: Message, parents: seq<ID>)
    requires Resumes(g, live)
    ensures AppendCheck(g, message, parents) == AppendCheck(live, message, parents)
  {
    hide InverseOfParents, Recalls;
    SameReferences(g.nodes, live.nodes, parents);
    assert g.nodes == map[] <==> g.nodes.Keys == {};
    assert live.nodes == map[] <==> live.nodes.Keys == {};
  }

  /** Every call on the resumed graph fails, appends or ends exactly as on the live one. */
  lemma SameOutcome(g: State, live: State, op: Op)
    requires Resumes(g, live)
    ensures Step(g, op).1 == Step(live, op).1
  {
    hide InverseOfParents, TableRecalls, AppendCheck;
    if op.AppendOp? || op.TypedOp? { SameCheck(g, live, op.message, op.parents); }
  }

  lemma InverseGrows(nodes: map<ID, Node>, children: map<ID, seq<ID>>, n: Node)
    requires InverseOfParents(nodes, children) && n.id !in nodes && Distinct(n.Parents())
    ensures InverseOfParents(nodes[n.id := n], LinkParents(children, n.Parents(), n.id))
  {
    var nodes', children' := nodes[n.id := n], LinkParents(children, n.Parents(), n.id);
    forall p
      ensures Distinct(ChildList(children', p))
      ensures forall c :: c in ChildList(children', p) <==> c in nodes' && p in nodes'[c].Parents()
    {
      LinkDistinctParents(children, n.Parents(), n.id, p);
      assert n.id !in ChildList(children, p);
      forall c ensures c in ChildList(children', p) <==> c in nodes' && p in nodes'[c].Parents() {
        LinkParentsMembers(children, n.Parents(), n.id, p, c);
      }
    }
  }

  lemma AddResumes(g: State, live: State, n: Node)
    requires Resumes(g, live) && n.id !in live.nodes && Distinct(n.Parents())
    ensures Resumes(AddNode(g, n), AddNode(live, n))
  {
    hide InverseOfParents, ReadAs;
    InverseGrows(g.nodes, g.children, n);
  }

  lemma StepAdds(g: State, op: Op)
    requires (op.AppendOp? || op.TypedOp?) && (op.TypedOp? ==> NoParentEdge(op.extra)) && Step(g, op).1.Appended?
    ensures Step(g, op).0 == AddNode(g, Step(g, op).1.node)
  {
    hide AppendCheck, LinkParents;
    if op.TypedOp? {
      var plain := Append(g, op.message, op.parents, op.id, op.now).1.node;
      DecorateKeepsParents(plain, op.kind, op.extra, op.content);
      ReplacedIsAdded(g, plain, Step(g, op).1.node);
    }
  }

  lemma ReplacedIsAdded(g: State, plain: Node, n: Node)
    requires n.id == plain.id && n.Parents() == plain.Parents()
    ensures ReplaceLast(AddNode(g, plain), n).nodes == AddNode(g, n).nodes
    ensures ReplaceLast(AddNode(g, plain), n).children == AddNode(g, n).children
    ensures NodeEvent(g.session.id, g.eventNames, plain).(node := Some(n)) == NodeEvent(g.session.id, g.eventNames, n)
      ==> ReplaceLast(AddNode(g, plain), n) == AddNode(g, n)
  {
    var e, e' := NodeEvent(g.session.id, g.eventNames, plain), NodeEvent(g.session.id, g.eventNames, n);
    assert (g.events + [e])[|g.events| := e'] == g.events + [e'];
  }

  lemma StepResumes(g: State, live: State, op: Op)
    requires Resumes(g, live) && Reachable(live) && Admissible(live, op)
    ensures Resumes(Step(g, op).0, Step(live, op).0) && Step(g, op).1 == Step(live, op).1
  {
    hide TableRecalls, InverseOfParents, Reachable, AppendCheck, LinkParents, Fresh;
    SameOutcome(g, live, op);
    if op.AppendOp? || op.TypedOp? {
      AppendShape(live, op);
      var out := Step(live, op).1;
      if out.Appended? {
        StepAdds(g, op);
        StepAdds(live, op);
        FreshIsNew(live, out.node);
        AddResumes(g, live, out.node);
      }
    }
  }

  lemma FreshIsNew(g: State, n: Node)
    requires Appendable(g, n)
    ensures n.id !in g.nodes && Distinct(n.Parents())
  {
  }

  // ----- loading in between -----

  lemma LoadResumes(quads: set<Quad>, live: State, ld: Loaded, sorted: seq<Node>)
    requires Reachable(live) && live.started && Mirrors(quads, live) && PlainTable(live.nodes)
    requires live.eventNames == DEFAULT_NAMES && LoadRead(quads, live.session.id, ld)
    requires SortedNodes(NodeMap(ld.nodes), sorted)
    ensures Resumes(LoadedGraph(ld, sorted), live)
  {
    hide Mirrors, LoadRead, SortedNodes, NodeMap, ChildIndex, InverseOfParents;
    hide PlainTable, ReadAs, Acyclic, DepMap, CutDeps;
    LoadKeepsGraph(quads, live, ld);
    LoadedInverse(live.nodes, NodeMap(ld.nodes), sorted);
    ClosedEnding(live);
  }

  /** An open graph has no ending yet. */
  lemma ClosedEnding(g: State)
    requires Reachable(g)
    ensures !g.closed ==> g.endReason == "" && g.terminalNodeID == NO_ID
  {
    ReachableInv(g);
  }

  datatype Turn = Call(op: Op) | Reload(ld: Loaded, sorted: seq<Node>)

  function Calls(turns: seq<Turn>): seq<Op> {
    if turns == [] then []
    else
      var before, turn := Calls(turns[..|turns| - 1]), turns[|turns| - 1];
      if turn.Call? then before + [turn.op] else before
  }

  /** The store and the graph in memory; a reload replaces the graph by what the store gives. */
  datatype Held = Held(quads: set<Quad>, g: State)

  ghost predicate Possible(h: Held, turn: Turn) {
    turn.Reload? ==> LoadRead(h.quads, h.g.session.id, turn.ld) && SortedNodes(NodeMap(turn.ld.nodes), turn.sorted)
  }

  ghost function Turned(h: Held, turn: Turn): Held {
    match turn
    case Call(op) => Held(Through(h.quads, h.g, op), Step(h.g, op).0)
    case Reload(ld, sorted) => Held(h.quads, LoadedGraph(ld, sorted))
  }

  ghost function AfterTurns(h: Held, turns: seq<Turn>): Option<Held> {
    if turns == [] then Some(h)
    else
      var before, turn := AfterTurns(h, turns[..|turns| - 1]), turns[|turns| - 1];
      if before.None? || !Possible(before.value, turn) then None else Some(Turned(before.value, turn))
  }

  /** After the calls of these turns the live graph is reachable, and the store its copy. */
  ghost predicate Live(h: Held, ops: seq<Op>) {
    var live := Run(h.g, ops);
    Reachable(live) && live.started && live.eventNames == DEFAULT_NAMES && Mirrors(ThroughRun(h.quads, h.g, ops), live)
  }

  lemma {:induction false} LiveAlong(h: Held, ops: seq<Op>)
    requires Live(h, []) && AdmissibleRun(h.g, ops) && NewAlong(h.quads, h.g, ops)
    ensures Live(h, ops)
  {
    if ops != [] {
      var m := |ops| - 1;
      var before := ops[..m];
      PrefixAlong(h, ops);
      LiveAlong(h, before);
      assert Admissible(Run(h.g, ops[..m]), ops[m])
        && NewToStore(ThroughRun(h.quads, h.g, ops[..m]), Run(h.g, ops[..m]), ops[m]);
      WriteThroughStep(ThroughRun(h.quads, h.g, before), Run(h.g, before), ops[m]);
      ReachableStep(Run(h.g, before), ops[m]);
      StepStays(Run(h.g, before), ops[m]);
    }
  }

  lemma PrefixAlong(h: Held, ops: seq<Op>)
    requires ops != [] && AdmissibleRun(h.g, ops) && NewAlong(h.quads, h.g, ops)
    ensures AdmissibleRun(h.g, ops[..|ops| - 1]) && NewAlong(h.quads, h.g, ops[..|ops| - 1])
  {
    var before := ops[..|ops| - 1];
    forall i | 0 <= i < |before|
      ensures Admissible(Run(h.g, before[..i]), before[i])
      ensures NewToStore(ThroughRun(h.quads, h.g, before[..i]), Run(h.g, before[..i]), before[i])
    {
      assert before[..i] == ops[..i];
      assert Admissible(Run(h.g, ops[..i]), ops[i])
        && NewToStore(ThroughRun(h.quads, h.g, ops[..i]), Run(h.g, ops[..i]), ops[i]);
    }
  }

  lemma StepStays(g: State, op: Op)
    ensures g.started ==> Step(g, op).0.started
    ensures Step(g, op).0.eventNames == g.eventNames
    ensures g.started ==> Step(g, op).0.session == g.session
  {
  }

  lemma SameThrough(quads: set<Quad>, g: State, live: State, op: Op)
    requires Resumes(g, live) && Reachable(live) && Admissible(live, op)
    ensures Through(quads, g, op) == Through(quads, live, op)
  {
    hide TableRecalls, InverseOfParents, Reachable, Step, AfterCreate, AfterWrite, AfterEnd, Fresh;
    StepResumes(g, live, op);
    if op.StartOp? { StartedTwice(g, op); StartedTwice(live, op); }
  }

  lemma StartedTwice(g: State, op: Op)
    requires g.started && op.StartOp?
    ensures Step(g, op).1.Failed?
  {
  }

  lemma PlainBefore(g: State, op: Op)
    requires Reachable(g) && Admissible(g, op) && PlainTable(Step(g, op).0.nodes)
    ensures PlainTable(g.nodes)
  {
    hide Reachable, Admissible, Step, PlainParents;
    HistoryPersists(g, op);
  }

  lemma {:induction false} TurnsFollow(h: Held, turns: seq<Turn>)
    requires Live(h, []) && AfterTurns(h, turns).Some?
    requires AdmissibleRun(h.g, Calls(turns)) && NewAlong(h.quads, h.g, Calls(turns))
    requires PlainTable(Run(h.g, Calls(turns)).nodes)
    ensures var r := AfterTurns(h, turns).value;
      r.quads == ThroughRun(h.quads, h.g, Calls(turns)) && Resumes(r.g, Run(h.g, Calls(turns)))
  {
    hide Resumes, Reachable, Mirrors, PlainTable, Admissible, NewToStore, LoadRead, SortedNodes, Step, Through;
    if turns == [] {
      ResumesItself(h.g);
    } else {
      var before, turn := turns[..|turns| - 1], turns[|turns| - 1];
      var ops := Calls(before);
      LiveAlong(h, Calls(turns));
      if turn.Call? {
        var all := Calls(turns);
        assert all[..|all| - 1] == ops && all[|all| - 1] == turn.op;
        PrefixAlong(h, all);
        LastAdmissible(h.g, all);
        LiveAlong(h, ops);
        PlainBefore(Run(h.g, ops), turn.op);
        TurnsFollow(h, before);
        var b, live := AfterTurns(h, before).value, Run(h.g, ops);
        StepResumes(b.g, live, turn.op);
        SameThrough(b.quads, b.g, live, turn.op);
      } else {
        TurnsFollow(h, before);
        var b, live := AfterTurns(h, before).value, Run(h.g, ops);
        SameSession(b.g, live);
        LoadResumes(b.quads, live, turn.ld, turn.sorted);
      }
    }
  }

  lemma LastAdmissible(g: State, ops: seq<Op>)
    requires ops != [] && AdmissibleRun(g, ops)
    ensures Admissible(Run(g, ops[..|ops| - 1]), ops[|ops| - 1])
  {
  }

  lemma SameSession(g: State, live: State)
    requires Resumes(g, live)
    ensures g.session == live.session
  {
  }

  lemma RecalledParents(n: Node, m: Node)
    requires Recalls(n, m) && PlainParents(n)
    ensures forall p :: p in m.Parents() <==> p in n.Parents()
    ensures m.message == n.message
  {
    if m != n {
      ReadParents(n, m);
      ReadBasics(n, m);
    }
  }

  lemma ResumedBehaviour(g: State, live: State, id: ID)
    requires Resumes(g, live) && Reachable(live) && PlainTable(live.nodes)
    ensures Pending(g, id) <==> Pending(live, id)
    ensures forall to, n: nat :: AdvancesTo(g.children, id, to, n) <==> AdvancesTo(live.children, id, to, n)
  {
    hide Recalls, PlainParents, Reachable, InverseOfParents, ParentIDs;
    ReachableChildren(live);
    forall x | x in live.nodes ensures forall p :: p in g.nodes[x].Parents() <==> p in live.nodes[x].Parents() {
      RecalledParents(live.nodes[x], g.nodes[x]);
    }
    if id in live.nodes { RecalledParents(live.nodes[id], g.nodes[id]); }
    SamePending(g, live, id);
    forall to, n: nat ensures AdvancesTo(g.children, id, to, n) <==> AdvancesTo(live.children, id, to, n) {
      SameAdvance(g.nodes, g.children, live.nodes, live.children, id, to, n);
    }
  }

  /**
   Loading a session again and again between its calls cannot be told from never unloading it: the store ends up
   the same, every next call has the same outcome, and the graph waits for inference and walks forward alike;
   and it can always be loaded once more.
   */
  lemma ReloadedIsUninterrupted(h: Held, turns: seq<Turn>, id: ID)
    requires Live(h, []) && AfterTurns(h, turns).Some?
    requires AdmissibleRun(h.g, Calls(turns)) && NewAlong(h.quads, h.g, Calls(turns))
    requires PlainDepTable(Run(h.g, Calls(turns)).nodes)
    ensures var r, live := AfterTurns(h, turns).value, Run(h.g, Calls(turns));
      && r.quads == ThroughRun(h.quads, h.g, Calls(turns)) && Resumes(r.g, live)
      && (forall op :: Step(r.g, op).1 == Step(live, op).1)
      && (Pending(r.g, id) <==> Pending(live, id))
      && (forall to, n: nat :: AdvancesTo(r.g.children, id, to, n) <==> AdvancesTo(live.children, id, to, n))
      && forall ld :: LoadRead(r.quads, live.session.id, ld) ==> Acyclic(DepMap(NodeMap(ld.nodes)))
  {
    hide Resumes, Step, Mirrors, PlainDepTable, LoadRead, Acyclic;
    hide DepMap, Reachable, AdmissibleRun, NewAlong, Pending, AdvancesTo;
    var ops := Calls(turns);
    var r, live := AfterTurns(h, turns).value, Run(h.g, ops);
    PlainDepsUncut(live.nodes);
    TurnsFollow(h, turns);
    LiveAlong(h, ops);
    forall op ensures Step(r.g, op).1 == Step(live, op).1 { SameOutcome(r.g, live, op); }
    ResumedBehaviour(r.g, live, id);
    forall ld | LoadRead(r.quads, live.session.id, ld) ensures Acyclic(DepMap(NodeMap(ld.nodes))) {
      LoadKeepsGraph(r.quads, live, ld);
    }
  }
}
