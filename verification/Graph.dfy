/** The in-memory session graph, updated in place by its locked methods. */
module SessionGraph {
  import opened Types
  import opened Sequences
  import opened GraphState
  import opened GraphInvariant
  import opened GraphTheorems
  import opened EventFields
  import opened CallEffects
  import opened Lineage
  import opened Replay

  class Graph {
    var session: Session
    var eventNames: EventNames
    var nodes: map<ID, Node>
    var children: map<ID, seq<ID>>
    var events: seq<Event>
    var headID: ID
    var terminalNodeID: ID
    var endReason: string
    var started: bool
    var closed: bool

    /** The graph as a value. */
    ghost function Value(): State
      reads this
    {
      State(session, eventNames, nodes, children, events, headID, terminalNodeID, endReason, started, closed)
    }

    constructor (sessionID: ID, spawnedFrom: Option<SpawnReference>, names: EventNames)
      ensures Value() == NewGraph(sessionID, spawnedFrom, names)
      ensures session == Session(sessionID, 0, spawnedFrom) && eventNames == names && !started && !closed
      ensures nodes == map[] && children == map[] && events == []
      ensures headID == terminalNodeID == NO_ID && endReason == ""
    {
      session := Session(sessionID, 0, spawnedFrom);
      eventNames := names;
      nodes, children, events := map[], map[], [];
      headID, terminalNodeID, endReason := NO_ID, NO_ID, "";
      started, closed := false, false;
    }

    // ----- lifecycle -----

    method Start(now: Time) returns (r: Result<Event, Error>)
      modifies this
      ensures var (g, out) := GraphState.Start(old(Value()), now);
        Value() == g && r == (if out.Failed? then Err(out.error) else Ok(out.event))
      ensures r.Ok? ==>
        && session == Session(old(session.id), now, old(session.spawnedFrom)) && started
        && events == old(events) + [r.value] && Opens(r.value, session, eventNames.sessionStart)
    {
      if closed { return Err(SessionClosed); }
      if started { return Err(SessionAlreadyStarted); }
      started := true;
      session := session.(timestamp := now);
      var event := StartEvent(session, eventNames);
      events := events + [event];
      r := Ok(event);
    }

    method End(reason: string, now: Time) returns (r: Result<Event, Error>)
      modifies this
      ensures var (g, out) := GraphState.End(old(Value()), reason, now);
        Value() == g && r == (if out.Failed? then Err(out.error) else Ok(out.event))
      ensures r.Ok? ==>
        && closed && terminalNodeID == headID == old(headID) && endReason == reason && events == old(events) + [r.value]
        && Ends(r.value, session.id, now, headID, reason, eventNames.sessionEnded)
    {
      if reason != REASON_COMPLETE && reason != REASON_FAILED { return Err(InvalidEndReason); }
      if closed { return Err(SessionClosed); }
      if !started { return Err(SessionNotStarted); }
      closed := true;
      terminalNodeID := headID;
      endReason := reason;
      var event := EndEvent(session.id, eventNames, now, terminalNodeID, reason);
      events := events + [event];
      r := Ok(event);
    }

    // ----- appending -----

    method Validate(ids: seq<ID>) returns (r: Result<seq<ID>, Error>)
      ensures r == ValidateReferences(nodes, ids)
    {
      var validated: seq<ID> := [];
      for i := 0 to |ids|
        invariant ValidateReferences(nodes, ids[..i]) == Ok(validated)
      {
        assert ids[..i + 1][..i] == ids[..i];
        if ids[i] == NO_ID {
          PrefixErrorStays(nodes, ids, i + 1);
          return Err(NodeReferenceEmpty);
        }
        if ids[i] !in nodes {
          PrefixErrorStays(nodes, ids, i + 1);
          return Err(NodeNotFound(ids[i]));
        }
        if ids[i] !in validated {
          validated := validated + [ids[i]];
        }
      }
      assert ids[..|ids|] == ids;
      r := Ok(validated);
    }

    /** Lists `child` under each parent, one parent at a time. */
    method IndexChild(parents: seq<ID>, child: ID)
      modifies this`children
      ensures children == LinkParents(old(children), parents, child)
    {
      for i := 0 to |parents|
        invariant children == LinkParents(old(children), parents[..i], child)
      {
        assert parents[..i + 1][..i] == parents[..i];
        children := children[parents[i] := (if parents[i] in children then children[parents[i]] else []) + [child]];
      }
      assert parents[..|parents|] == parents;
    }

    method Append(message: Message, parentIDs: seq<ID>, id: ID, now: Time) returns (r: Result<Node, Error>)
      modifies this
      ensures var (g, out) := GraphState.Append(old(Value()), message, parentIDs, id, now);
        Value() == g && r == (if out.Failed? then Err(out.error) else Ok(out.node))
      ensures r.Err? ==> Value() == old(Value()) && AppendFails(old(Value()), message, parentIDs, r.error)
      ensures r.Ok? ==>
        && MadeFrom(r.value, old(Value()), id, now, message, parentIDs, "", [], NoContent)
        && Holding(Value(), old(Value()), r.value, parentIDs)
    {
      hide AppendFails, MadeFrom, Holding, LinkParents, ParentIDs, AppendOrder;
      AppendEffect(Value(), message, parentIDs, id, now);
      if closed { return Err(SessionClosed); }
      if !started { return Err(SessionNotStarted); }
      if eventNames.nodeAppended == "" { return Err(MissingEventName); }
      if !message.Valid() { return Err(MessageSubtype); }
      if |parentIDs| == 0 && |nodes| != 0 { return Err(InvalidRoot); }
      var validated := Validate(parentIDs);
      if validated.Err? { return Err(validated.error); }
      var edges: seq<EdgeRef> := [];
      for i := 0 to |validated.value|
        invariant edges == ParentEdges(validated.value[..i])
      {
        edges := edges + [EdgeRef(PARENT, validated.value[i], 0.0)];
      }
      assert validated.value[..|validated.value|] == validated.value;
      var node := Node(id, session.id, now, message, "", edges, false, None, None, None, None);
      nodes := nodes[node.id := node];
      var parents := CollectParents(node.edges);
      IndexChild(parents, node.id);
      headID := node.id;
      events := events + [NodeEvent(session.id, eventNames, node)];
      r := Ok(node);
    }

    method AppendTypedNode(kind: string, message: Message, extra: seq<EdgeRef>, content: Content,
                           parentIDs: seq<ID>, id: ID, now: Time)
      returns (r: Result<Node, Error>)
      modifies this
      ensures var (g, out) := GraphState.AppendTyped(old(Value()), kind, message, extra, content, parentIDs, id, now);
        Value() == g && r == (if out.Failed? then Err(out.error) else Ok(out.node))
      ensures r.Err? ==> Value() == old(Value()) && AppendFails(old(Value()), message, parentIDs, r.error)
      ensures r.Ok? ==>
        && MadeFrom(r.value, old(Value()), id, now, message, parentIDs, kind, extra, content)
        && Holding(Value(), old(Value()), r.value, parentIDs)
    {
      hide AppendFails, MadeFrom, Holding, LinkParents, ParentIDs, AppendCheck;
      TypedEffect(Value(), TypedOp(kind, message, extra, content, parentIDs, id, now));
      r := Append(message, parentIDs, id, now);
      if r.Err? { return; }
      var node := r.value.(kind := kind, edges := r.value.edges + extra);
      match content {
        case NoContent =>
        case MemoryC(c) => node := node.(memory := Some(c));
        case SkillC(c) => node := node.(skill := Some(c));
        case IdentityC(c) => node := node.(identity := Some(c));
        case SleepC(c) => node := node.(sleep := Some(c));
      }
      nodes := nodes[node.id := node];
      events := events[|events| - 1 := events[|events| - 1].(node := Some(node))];
      r := Ok(node);
    }

    // ----- queries -----

    method Head() returns (head: Option<Node>)
      ensures head == (if headID != NO_ID && headID in nodes then Some(nodes[headID]) else None)
    {
      if headID == NO_ID || headID !in nodes { return None; }
      head := Some(nodes[headID]);
    }

    /** Follows first parents to a root. The source has no cycle guard: the loop ends exactly when the climb does. */
    method ResumeNodes(nodeID: ID, ghost climb: nat) returns (r: Result<seq<Node>, Error>)
      requires ClimbEnds(nodes, nodeID, climb) && forall id :: id in nodes ==> nodes[id].id == id
      ensures r.Ok? ==> IsLineage(nodes, nodeID, r.value)
      ensures r.Err? ==> r.error.NodeNotFound? && exists n: nat :: LineageBreaks(nodes, nodeID, r.error.id, n)
    {
      hide LeadsOn, BreaksOn, IsLineage, LineageBreaks, ParentIDs;
      LeadsOnStart(nodes, nodeID);
      if nodeID !in nodes {
        BreaksHere(nodes, nodeID, nodeID, 0);
        return Err(NodeNotFound(nodeID));
      }
      var current := nodes[nodeID];
      var lineage := [current];
      ghost var tail: seq<Node>, steps, left: nat := [], 0, climb;
      var parents := CollectParents(current.edges);
      while |parents| != 0
        invariant current.id in nodes && nodes[current.id] == current && parents == current.Parents()
        invariant Reversed(lineage) == [current] + tail
        invariant LeadsOn(nodes, current.id, nodeID, tail) && BreaksOn(nodes, current.id, nodeID, steps)
        invariant ClimbEnds(nodes, current.id, left)
        decreases left
      {
        var parentID := parents[0];
        LeadsOnUp(nodes, current, parentID, nodeID, tail, steps);
        if parentID !in nodes {
          BreaksHere(nodes, parentID, nodeID, steps + 1);
          return Err(NodeNotFound(parentID));
        }
        tail, steps, left := [current] + tail, steps + 1, left - 1;
        current := nodes[parentID];
        ReversedPush(lineage, current);
        lineage := lineage + [current];
        parents := CollectParents(current.edges);
      }
      LeadsToRoot(nodes, current, nodeID, tail);
      var ordered := Reverse(lineage);
      r := Ok(ordered);
    }

    /** Walks single-child edges forward. The source has no cycle guard: the loop ends exactly when the walk does. */
    method AdvanceHead(fromID: ID, ghost to: ID, ghost n: nat) returns (r: Result<ID, Error>)
      requires fromID in nodes ==> AdvancesTo(children, fromID, to, n)
      ensures r == if fromID in nodes then Ok(to) else Err(NodeNotFound(fromID))
    {
      if fromID !in nodes { return Err(NodeNotFound(fromID)); }
      var current := fromID;
      ghost var left := n;
      while true
        invariant AdvancesTo(children, current, to, left)
        decreases left
      {
        var below := if current in children then children[current] else [];
        if |below| == 0 || |below| > 1 {
          return Ok(current);
        }
        current := below[0];
        left := left - 1;
      }
    }

    method NeedsResponse(nodeID: ID) returns (r: Result<bool, Error>)
      ensures r == (if nodeID !in nodes then Err(NodeNotFound(nodeID)) else Ok(Pending(Value(), nodeID)))
      ensures r.Ok? ==> (r.value <==>
        (nodeID !in children || children[nodeID] == [])
        && (nodes[nodeID].message.user.Some? || nodes[nodeID].message.tool.Some?))
    {
      if nodeID !in nodes { return Err(NodeNotFound(nodeID)); }
      var below := if nodeID in children then children[nodeID] else [];
      r := Ok(|below| == 0 && nodes[nodeID].message.RequiresResponse());
    }

    // ----- replay -----

    method LinkNodeParents(i: nat, node: Node) returns (err: Option<Error>)
      modifies this`children
      ensures match FirstMissing(nodes, node.Parents())
        case Some(p) => err == Some(ParentMissing(i, p))
        case None => err == None && children == LinkParents(old(children), node.Parents(), node.id)
    {
      var parents := CollectParents(node.edges);
      for k := 0 to |parents|
        invariant FirstMissing(nodes, parents[..k]) == None
        invariant children == LinkParents(old(children), parents[..k], node.id)
      {
        assert parents[..k + 1][..k] == parents[..k];
        if parents[k] !in nodes {
          PrefixMissingStays(nodes, parents, k + 1);
          return Some(ParentMissing(i, parents[k]));
        }
        children := children[parents[k] := (if parents[k] in children then children[parents[k]] else []) + [node.id]];
      }
      assert parents[..|parents|] == parents;
      err := None;
    }

    /** Applies one event; names are collected by the caller and installed at the end. */
    method ApplyEventToGraph(names: EventNames, i: nat, event: Event) returns (err: Option<Error>, names': EventNames)
      modifies this
      ensures match ApplyEvent(old(Value()).(eventNames := names), i, event)
        case Err(e) => err == Some(e)
        case Ok(g) => err == None && Value().(eventNames := names') == g
      ensures events == old(events) && eventNames == old(eventNames)
    {
      names', err := names, None;
      match ClassifyEvent(event) {
        case SessionStart =>
          if started { return Some(UnexpectedSessionStart(i)), names; }
          session := Session(event.sessionID, event.timestamp, event.spawnedFrom);
          started := true;
          names' := names.(sessionStart := event.name);
        case NodeAppended =>
          var node := event.node.value;
          if node.id == NO_ID { return Some(NodeIDRequired(i)), names; }
          if node.sessionID == NO_ID || node.sessionID != session.id { return Some(NodeSessionIDMismatch(i)), names; }
          err := LinkNodeParents(i, node);
          if err.Some? { return; }
          nodes := nodes[node.id := node];
          headID := node.id;
          names' := names.(nodeAppended := event.name);
        case SessionEnded =>
          closed := true;
          terminalNodeID := event.terminalNodeID;
          endReason := event.reason;
          names' := names.(sessionEnded := event.name);
      }
    }
  }

  /** A leaf whose message asks for inference. */
  ghost predicate Pending(g: State, id: ID) {
    id in g.nodes && ChildList(g.children, id) == [] && g.nodes[id].message.RequiresResponse()
  }

  /** Stored, no stored node's parent, with a user message or a tool result; system and assistant leaves do not wait. */
  lemma PendingIff(g: State, id: ID)
    requires Reachable(g)
    ensures Pending(g, id) <==>
      && id in g.nodes && (forall c :: c in g.nodes ==> id !in g.nodes[c].Parents())
      && (g.nodes[id].message.user.Some? || g.nodes[id].message.tool.Some?)
    ensures id in g.nodes && (g.nodes[id].message.system.Some? || g.nodes[id].message.assistant.Some?) ==>
      !Pending(g, id)
  {
    ReachableLeaf(g, id);
    if id in g.nodes { ReachableMessages(g, id); }
  }

  method RestoreFromEvents(events: seq<Event>) returns (r: Result<Graph, Error>)
    ensures r.Ok? ==> fresh(r.value) && Restore(events) == Ok(r.value.Value())
    ensures r.Err? ==> Restore(events) == Err(r.error)
  {
    if |events| == 0 { return Err(GraphNotFound); }
    var names := DEFAULT_NAMES;
    var graph := new Graph(NO_ID, None, DEFAULT_NAMES);
    for i := 0 to |events|
      invariant fresh(graph)
      invariant ReplayAll(events[..i]) == Ok(graph.Value().(eventNames := names))
    {
      assert events[..i + 1][..i] == events[..i];
      ghost var before := graph.Value().(eventNames := names);
      var err;
      err, names := graph.ApplyEventToGraph(names, i, events[i]);
      if err.Some? {
        ReplayErrorStays(events, i + 1);
        return Err(err.value);
      }
      graph.events := graph.events + [events[i].(kind := ClassifyEvent(events[i]))];
    }
    assert events[..|events|] == events;
    if !graph.started { return Err(MissingSessionStart); }
    graph.eventNames := names;
    r := Ok(graph);
  }

  // ----- helpers -----

  lemma {:induction false} PrefixErrorStays(nodes: map<ID, Node>, ids: seq<ID>, k: nat)
    requires k <= |ids| && ValidateReferences(nodes, ids[..k]).Err?
    ensures ValidateReferences(nodes, ids) == ValidateReferences(nodes, ids[..k])
    decreases |ids|
  {
    if k < |ids| {
      assert ids[..|ids| - 1][..k] == ids[..k];
      PrefixErrorStays(nodes, ids[..|ids| - 1], k);
    } else {
      assert ids[..k] == ids;
    }
  }

  lemma {:induction false} PrefixMissingStays(nodes: map<ID, Node>, ids: seq<ID>, k: nat)
    requires k <= |ids| && FirstMissing(nodes, ids[..k]).Some?
    ensures FirstMissing(nodes, ids) == FirstMissing(nodes, ids[..k])
    decreases |ids|
  {
    if k < |ids| {
      assert ids[..|ids| - 1][..k] == ids[..k];
      PrefixMissingStays(nodes, ids[..|ids| - 1], k);
    } else {
      assert ids[..k] == ids;
    }
  }

  lemma {:induction false} ReplayErrorStays(events: seq<Event>, k: nat)
    requires k <= |events| && ReplayAll(events[..k]).Err?
    ensures ReplayAll(events) == ReplayAll(events[..k])
    decreases |events|
  {
    if k < |events| {
      assert events[..|events| - 1][..k] == events[..k];
      ReplayErrorStays(events[..|events| - 1], k);
    } else {
      assert events[..k] == events;
    }
  }
}
