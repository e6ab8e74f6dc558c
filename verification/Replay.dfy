/** Rebuilding a graph from its event log, and when that gives back the live graph. */
module Replay {
  import opened Types
  import opened GraphState
  import opened GraphInvariant

  // ----- the replay, one event at a time -----

  function FirstMissing(nodes: map<ID, Node>, ids: seq<ID>): Option<ID> {
    if ids == [] then None
    else
      match FirstMissing(nodes, ids[..|ids| - 1])
      case Some(id) => Some(id)
      case None => if ids[|ids| - 1] in nodes then None else Some(ids[|ids| - 1])
  }

  const BLANK := NewGraph(NO_ID, None, DEFAULT_NAMES)

  /** Applies the effect of event i on the graph; event names are learned from the log. */
  function ApplyEvent(g: State, i: nat, e: Event): Result<State, Error> {
    match ClassifyEvent(e)
    case SessionStart =>
      if g.started then Err(UnexpectedSessionStart(i))
      else Ok(g.(session := Session(e.sessionID, e.timestamp, e.spawnedFrom), started := true,
                 eventNames := g.eventNames.(sessionStart := e.name)))
    case NodeAppended =>
      var n := e.node.value;
      if n.id == NO_ID then Err(NodeIDRequired(i))
      else if n.sessionID == NO_ID || n.sessionID != g.session.id then Err(NodeSessionIDMismatch(i))
      else
        (match FirstMissing(g.nodes, n.Parents())
         case Some(p) => Err(ParentMissing(i, p))
         case None =>
           Ok(g.(nodes := g.nodes[n.id := n], children := LinkParents(g.children, n.Parents(), n.id),
                 headID := n.id, eventNames := g.eventNames.(nodeAppended := e.name))))
    case SessionEnded =>
      Ok(g.(closed := true, terminalNodeID := e.terminalNodeID, endReason := e.reason,
            eventNames := g.eventNames.(sessionEnded := e.name)))
  }

  function LogEvent(g: State, e: Event): State {
    g.(events := g.events + [e.(kind := ClassifyEvent(e))])
  }

  function ReplayAll(events: seq<Event>): Result<State, Error> {
    if events == [] then Ok(BLANK)
    else
      match ReplayAll(events[..|events| - 1])
      case Err(e) => Err(e)
      case Ok(g) =>
        (match ApplyEvent(g, |events| - 1, events[|events| - 1])
         case Err(e) => Err(e)
         case Ok(g') => Ok(LogEvent(g', events[|events| - 1])))
  }

  function Restore(events: seq<Event>): Result<State, Error> {
    if events == [] then Err(GraphNotFound)
    else
      match ReplayAll(events)
      case Err(e) => Err(e)
      case Ok(g) => if g.started then Ok(g) else Err(MissingSessionStart)
  }

  lemma {:induction false} FirstMissingFinds(nodes: map<ID, Node>, ids: seq<ID>)
    ensures FirstMissing(nodes, ids).None? <==> forall id :: id in ids ==> id in nodes
    ensures FirstMissing(nodes, ids).Some? ==>
      FirstMissing(nodes, ids).value in ids && FirstMissing(nodes, ids).value !in nodes
  {
    if ids != [] {
      FirstMissingFinds(nodes, ids[..|ids| - 1]);
      assert ids == ids[..|ids| - 1] + [ids[|ids| - 1]];
    }
  }

  // ----- a graph's own log rebuilds the graph -----

  /** Names of kinds never emitted fall back to the defaults. */
  function LearnedNames(g: State): EventNames {
    EventNames(g.eventNames.sessionStart,
               if g.nodes == map[] then DEFAULT_NAMES.nodeAppended else g.eventNames.nodeAppended,
               if g.closed then g.eventNames.sessionEnded else DEFAULT_NAMES.sessionEnded)
  }

  lemma ReplayStart(session: Session, names: EventNames)
    ensures var log := [StartEvent(session, names)];
      ReplayAll(log) == Ok(State(session, DEFAULT_NAMES.(sessionStart := names.sessionStart),
                                 map[], map[], log, NO_ID, NO_ID, "", true, false))
  {
    var log := [StartEvent(session, names)];
    assert log[..0] == [];
    assert BLANK.events + log == log;
  }

  lemma ReplayExtend(log: seq<Event>, e: Event)
    requires ReplayAll(log).Ok? && ApplyEvent(ReplayAll(log).value, |log|, e).Ok?
    ensures ReplayAll(log + [e]) == Ok(LogEvent(ApplyEvent(ReplayAll(log).value, |log|, e).value, e))
  {
    assert (log + [e])[..|log + [e]| - 1] == log;
  }

  /** The state after replaying the start event and the first nodes of a graph. */
  function OpenState(g: State, ns: seq<Node>): State {
    State(g.session,
      EventNames(g.eventNames.sessionStart, if ns == [] then DEFAULT_NAMES.nodeAppended else g.eventNames.nodeAppended,
                 DEFAULT_NAMES.sessionEnded),
      NodeMap(ns), ChildIndex(ns), OpenLog(g, ns), LastID(ns), NO_ID, "", true, false)
  }

  function OpenLog(g: State, ns: seq<Node>): seq<Event> {
    [StartEvent(g.session, g.eventNames)] + NodeEvents(g.session.id, g.eventNames, ns)
  }

  /** What replay asks of the nodes of a log: IDs, the session, and parents seen before. */
  ghost predicate ReplayableAt(sid: ID, ns: seq<Node>, k: nat)
    requires k < |ns|
  {
    ns[k].id != NO_ID && ns[k].sessionID == sid && forall p :: p in ns[k].Parents() ==> Before(ns, k, p)
  }

  ghost predicate Replayable(sid: ID, ns: seq<Node>) {
    sid != NO_ID && forall k :: 0 <= k < |ns| ==> ReplayableAt(sid, ns, k)
  }

  lemma ReplayablePrefix(sid: ID, ns: seq<Node>, m: nat)
    requires Replayable(sid, ns) && m <= |ns|
    ensures Replayable(sid, ns[..m])
  {
    forall k | 0 <= k < m ensures ReplayableAt(sid, ns[..m], k) {
      assert ReplayableAt(sid, ns, k);
      forall p | Before(ns, k, p) ensures Before(ns[..m], k, p) {
        var j :| 0 <= j < k && ns[j].id == p;
        assert ns[..m][j].id == p;
      }
    }
  }

  lemma OpenStep(g: State, ns: seq<Node>, n: Node)
    requires Replayable(g.session.id, ns + [n])
    ensures ApplyEvent(OpenState(g, ns), |ns| + 1, NodeEvent(g.session.id, g.eventNames, n)) ==
            Ok(OpenState(g, ns + [n]).(events := OpenLog(g, ns)))
  {
    hide NodeMap, ChildIndex, FirstMissing, LinkParents, ParentIDs;
    ViewsExtend(ns, n);
    var all := ns + [n];
    assert all[..|ns|] == ns;
    assert ReplayableAt(g.session.id, all, |ns|);
    NodeMapKeys(ns);
    forall p | p in n.Parents() ensures p in NodeMap(ns) {
      var j :| 0 <= j < |ns| && all[j].id == p;
      assert ns[j].id == p;
    }
    FirstMissingFinds(NodeMap(ns), n.Parents());
  }

  lemma ReplayOpenStep(g: State, ns: seq<Node>, n: Node)
    requires Replayable(g.session.id, ns + [n])
    requires ReplayAll(OpenLog(g, ns)) == Ok(OpenState(g, ns))
    ensures ReplayAll(OpenLog(g, ns + [n])) == Ok(OpenState(g, ns + [n]))
  {
    var e := NodeEvent(g.session.id, g.eventNames, n);
    OpenStep(g, ns, n);
    ReplayExtend(OpenLog(g, ns), e);
    assert NodeEvents(g.session.id, g.eventNames, ns + [n]) == NodeEvents(g.session.id, g.eventNames, ns) + [e];
    assert OpenLog(g, ns) + [e] == OpenLog(g, ns + [n]);
  }

  lemma {:induction false} ReplayOpenLog(g: State, ns: seq<Node>)
    requires Replayable(g.session.id, ns)
    ensures ReplayAll(OpenLog(g, ns)) == Ok(OpenState(g, ns))
  {
    hide ReplayAll, Replayable;
    if ns == [] {
      ReplayStart(g.session, g.eventNames);
      assert OpenLog(g, ns) == [StartEvent(g.session, g.eventNames)];
    } else {
      var before, n := ns[..|ns| - 1], ns[|ns| - 1];
      ReplayablePrefix(g.session.id, ns, |ns| - 1);
      ReplayOpenLog(g, before);
      assert ns == before + [n];
      ReplayOpenStep(g, before, n);
    }
  }

  lemma WellOrderedReplays(sid: ID, ns: seq<Node>)
    requires sid != NO_ID && WellOrdered(sid, ns)
    ensures Replayable(sid, ns)
  {
    forall k | 0 <= k < |ns| ensures ReplayableAt(sid, ns, k) {
      assert WellPlaced(sid, ns, k);
    }
  }

  lemma AgreesReplay(g: State, ns: seq<Node>, ended: Time)
    requires Agrees(g, ns, ended) && g.started
    ensures Restore(g.events) == Ok(g.(eventNames := LearnedNames(g)))
  {
    hide NodeMap, ChildIndex, ReplayAll, WellOrdered, NodeEvents;
    WellOrderedReplays(g.session.id, ns);
    ReplayOpenLog(g, ns);
    EmptyNodeMap(ns);
    var open := OpenLog(g, ns);
    if g.closed {
      var e := EndEvent(g.session.id, g.eventNames, ended, g.headID, g.endReason);
      assert g.events == open + [e];
      ReplayExtend(open, e);
    } else {
      assert g.events == open;
    }
  }

  /** Replaying the log of a started graph gives back every part of it except names it never emitted. */
  lemma ReplayEqualsLive(g: State)
    requires Reachable(g) && g.started
    ensures Restore(g.events) == Ok(g.(eventNames := LearnedNames(g)))
    ensures Restore(g.events) == Ok(g) <==>
      && (g.nodes == map[] ==> g.eventNames.nodeAppended == DEFAULT_NAMES.nodeAppended)
      && (!g.closed ==> g.eventNames.sessionEnded == DEFAULT_NAMES.sessionEnded)
  {
    ReachableInv(g);
    var ended :| Agrees(g, AppendOrder(g.events), ended);
    AgreesReplay(g, AppendOrder(g.events), ended);
  }

  lemma {:induction false} RunKeepsNames(g: State, ops: seq<Op>)
    ensures Run(g, ops).eventNames == g.eventNames
  {
    if ops != [] { RunKeepsNames(g, ops[..|ops| - 1]); }
  }

  /** With the default names, the restored and the live graph answer any further calls alike. */
  lemma RestoredBehavesAlike(id: ID, spawned: Option<SpawnReference>, before: seq<Op>, after: seq<Op>, op: Op)
    requires id != NO_ID && AdmissibleRun(NewGraph(id, spawned, DEFAULT_NAMES), before)
    requires Run(NewGraph(id, spawned, DEFAULT_NAMES), before).started
    ensures var live := Run(NewGraph(id, spawned, DEFAULT_NAMES), before);
      var restored := Restore(live.events);
      restored.Ok? && Step(Run(restored.value, after), op) == Step(Run(live, after), op)
  {
    var g0 := NewGraph(id, spawned, DEFAULT_NAMES);
    RunKeepsNames(g0, before);
    ReplayEqualsLive(Run(g0, before));
  }

  // ----- extra parent edges are what replay cannot reproduce -----

  lemma {:induction false} LinkParentsCounts(children: map<ID, seq<ID>>, parents: seq<ID>, child: ID, p: ID)
    ensures |ChildList(LinkParents(children, parents, child), p)| == |ChildList(children, p)| + multiset(parents)[p]
  {
    if parents != [] {
      LinkParentsCounts(children, parents[..|parents| - 1], child, p);
      assert parents == parents[..|parents| - 1] + [parents[|parents| - 1]];
    }
  }

  /**
   After one typed append with any extra edges, the log replays to the live graph exactly when none is a parent
   edge.
   */
  lemma TypedAppendReplays(g: State, op: Op)
    requires Reachable(g) && g.started && op.TypedOp? && Fresh(g, op.id) && Unnamed(op.extra, op.id)
    requires Step(g, op).1.Appended?
    ensures var g' := Step(g, op).0;
      Restore(g'.events) == Ok(g'.(eventNames := LearnedNames(g'))) <==> NoParentEdge(op.extra)
  {
    ReachableInv(g);
    if NoParentEdge(op.extra) {
      StepKeepsInv(g, op);
      var g' := Step(g, op).0;
      var ended :| Agrees(g', AppendOrder(g'.events), ended);
      AppendShape(g, op);
      AgreesReplay(g', AppendOrder(g'.events), ended);
    } else {
      ExtraParentNotReplayed(g, op);
    }
  }

  lemma ExtraParentCounts(children: map<ID, seq<ID>>, parents: seq<ID>, extra: seq<ID>, id: ID)
    requires extra != []
    ensures LinkParents(children, parents + extra, id) != LinkParents(children, parents, id)
  {
    var p := extra[|extra| - 1];
    LinkParentsCounts(children, parents + extra, id, p);
    LinkParentsCounts(children, parents, id, p);
    assert p in multiset(extra);
    assert multiset(parents + extra) == multiset(parents) + multiset(extra);
  }

  /** Replaying one more node event on a replayable log. */
  lemma ReplayNodeEvent(log: seq<Event>, e: Event)
    requires e.node.Some? && ReplayAll(log).Ok?
    ensures ReplayAll(log + [e]).Ok? ==>
      ReplayAll(log + [e]).value.children ==
        LinkParents(ReplayAll(log).value.children, e.node.value.Parents(), e.node.value.id)
  {
    assert (log + [e])[..|log + [e]| - 1] == log;
  }

  /** The step of a typed append whose extra edges are not restricted. */
  lemma TypedStep(g: State, op: Op)
    requires op.TypedOp? && Fresh(g, op.id) && Step(g, op).1.Appended?
    ensures var (g', out) := Step(g, op);
      exists validated ::
        && g'.children == LinkParents(g.children, validated, op.id)
        && out.node.Parents() == validated + ParentIDs(op.extra) && out.node.id == op.id
        && g'.events == g.events + [NodeEvent(g.session.id, g.eventNames, out.node)]
  {
    PlainAppendShape(g, op.message, op.parents, op.id, op.now);
    var plain := Append(g, op.message, op.parents, op.id, op.now).1.node;
    DecorateKeepsParents(plain, op.kind, op.extra, op.content);
    var (g', out) := Step(g, op);
    assert g'.children == LinkParents(g.children, plain.Parents(), op.id);
    assert g'.events == g.events + [NodeEvent(g.session.id, g.eventNames, out.node)];
  }

  lemma ExtraParentNotReplayed(g: State, op: Op)
    requires Inv(g) && g.started && op.TypedOp? && Fresh(g, op.id)
    requires Step(g, op).1.Appended? && !NoParentEdge(op.extra)
    ensures var g' := Step(g, op).0; Restore(g'.events).Ok? ==> Restore(g'.events).value.children != g'.children
  {
    hide Step, Agrees, Fresh, LinkParents, ParentIDs, NoParentEdge;
    var ended :| Agrees(g, AppendOrder(g.events), ended);
    AgreesReplay(g, AppendOrder(g.events), ended);
    TypedStep(g, op);
    var (g', out) := Step(g, op);
    var validated :|
      && g'.children == LinkParents(g.children, validated, op.id)
      && out.node.Parents() == validated + ParentIDs(op.extra) && out.node.id == op.id
      && g'.events == g.events + [NodeEvent(g.session.id, g.eventNames, out.node)];
    NoParentEdgeNoParentIDs(op.extra);
    ExtraParentCounts(g.children, validated, ParentIDs(op.extra), op.id);
    ReplayNodeEvent(g.events, NodeEvent(g.session.id, g.eventNames, out.node));
  }
}
