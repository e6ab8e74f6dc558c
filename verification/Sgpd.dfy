/** Loading a session through sgpd: synthesized events, the protobuf wire, and replay on the client. */
module Sgpd {
  import opened Types
  import opened Sequences
  import opened GraphState
  import opened GraphInvariant
  import opened GraphTheorems
  import opened Replay
  import opened TopoOrder
  import opened TopoSort
  import opened Storage
  import opened SessionGraph
  import opened Convert

  // ----- the two ends of LoadEvents -----

  function OverTheWire(events: seq<Event>): seq<Event> {
    seq(|events|, i requires 0 <= i < |events| => EventFromProto(EventToProto(events[i])))
  }

  /** The server's LoadEvents on a loaded graph. */
  method LoadEvents(g: Graph) returns (pbs: seq<PbEvent>, ghost sorted: seq<Node>)
    requires Keyed(g.nodes)
    ensures |pbs| == |SynthLog(g.Value(), sorted)|
    ensures forall i :: 0 <= i < |pbs| ==> pbs[i] == EventToProto(SynthLog(g.Value(), sorted)[i])
    ensures if Acyclic(DepMap(g.nodes)) then SortedNodes(g.nodes, sorted) else sorted == []
  {
    hide SortedNodes, Acyclic, DepMap, EventToProto, SynthLog;
    var events;
    events, sorted := SynthesizeEvents(g);
    pbs := [];
    for i := 0 to |events|
      invariant |pbs| == i && forall k :: 0 <= k < i ==> pbs[k] == EventToProto(events[k])
    {
      pbs := pbs + [EventToProto(events[i])];
    }
  }

  /** The client's LoadGraph on the response. */
  method LoadGraph(pbs: seq<PbEvent>) returns (r: Result<Graph, Error>)
    ensures var events := seq(|pbs|, i requires 0 <= i < |pbs| => EventFromProto(pbs[i]));
      if r.Ok? then fresh(r.value) && Restore(events) == Ok(r.value.Value()) else Restore(events) == Err(r.error)
  {
    var events: seq<Event> := [];
    for i := 0 to |pbs|
      invariant |events| == i && forall k :: 0 <= k < i ==> events[k] == EventFromProto(pbs[k])
    {
      events := events + [EventFromProto(pbs[i])];
    }
    assert events == seq(|pbs|, i requires 0 <= i < |pbs| => EventFromProto(pbs[i]));
    r := RestoreFromEvents(events);
  }

  /** The whole path, server and client. */
  method RoundTrip(g: Graph) returns (r: Result<Graph, Error>, ghost sorted: seq<Node>)
    requires Keyed(g.nodes)
    ensures if Acyclic(DepMap(g.nodes)) then SortedNodes(g.nodes, sorted) else sorted == []
    ensures r.Ok? ==> fresh(r.value) && Restore(OverTheWire(SynthLog(g.Value(), sorted))) == Ok(r.value.Value())
    ensures r.Err? ==> Restore(OverTheWire(SynthLog(g.Value(), sorted))) == Err(r.error)
  {
    var pbs;
    pbs, sorted := LoadEvents(g);
    assert OverTheWire(SynthLog(g.Value(), sorted)) == seq(|pbs|, i requires 0 <= i < |pbs| => EventFromProto(pbs[i]));
    r := LoadGraph(pbs);
  }

  // ----- what comes out -----

  /** What the path needs of a stored graph; it says nothing about the log. */
  ghost predicate Loadable(g: State) {
    && g.started && g.session.id != NO_ID
    && Keyed(g.nodes) && Acyclic(DepMap(g.nodes))
    && forall id :: id in g.nodes ==> LoadableNode(g, g.nodes[id])
  }

  ghost predicate LoadableNode(g: State, n: Node) {
    && n.id != NO_ID && n.sessionID == g.session.id && n.message.Valid() && Distinct(n.Parents())
    && forall p :: p in n.Parents() ==> p in g.nodes
  }

  lemma ReachableLoadable(g: State)
    requires Reachable(g) && g.started
    ensures Loadable(g)
  {
    ReachableInv(g);
    ReachableAcyclic(g);
    var ns := AppendOrder(g.events);
    var ended :| Agrees(g, ns, ended);
    forall id | id in g.nodes ensures LoadableNode(g, g.nodes[id]) {
      AgreesOrder(g, ns, ended, id);
    }
  }

  function WireNodes(ns: seq<Node>): (ws: seq<Node>)
    ensures |ws| == |ns|
  {
    seq(|ns|, i requires 0 <= i < |ns| => WireNode(ns[i]))
  }

  /** The end event is recognised only by a known reason or a terminal node. */
  ghost predicate EndSurvives(g: State) {
    g.closed ==> g.endReason == REASON_COMPLETE || g.endReason == REASON_FAILED || g.terminalNodeID != NO_ID
  }

  /** The graph the client ends up with. */
  function Received(g: State, sorted: seq<Node>): State {
    var open := OpenState(g.(eventNames := SynthNames(g)), WireNodes(sorted));
    if g.closed then
      var names := open.eventNames.(sessionEnded := SynthNames(g).sessionEnded);
      var e := EndEvent(g.session.id, SynthNames(g), g.session.timestamp, g.terminalNodeID, WireReason(g.endReason));
      open.(eventNames := names, closed := true, terminalNodeID := g.terminalNodeID,
            endReason := WireReason(g.endReason), events := open.events + [e])
    else open
  }

  lemma WireStart(session: Session, names: EventNames)
    ensures EventFromProto(EventToProto(StartEvent(session, names))) == StartEvent(session, names)
  {
    EventRoundTrip(StartEvent(session, names));
  }

  lemma WireNodeEvent(sid: ID, names: EventNames, n: Node)
    ensures EventFromProto(EventToProto(NodeEvent(sid, names, n))) == NodeEvent(sid, names, WireNode(n))
  {
    EventRoundTrip(NodeEvent(sid, names, n));
  }

  lemma WireOpenLog(g: State, sorted: seq<Node>)
    ensures OverTheWire(OpenLog(g, sorted)) == OpenLog(g, WireNodes(sorted))
  {
    var log, wired := OpenLog(g, sorted), OpenLog(g, WireNodes(sorted));
    assert |log| == |wired| == |sorted| + 1;
    forall i | 0 <= i < |log| ensures EventFromProto(EventToProto(log[i])) == wired[i] {
      if i == 0 {
        WireStart(g.session, g.eventNames);
      } else {
        WireNodeEvent(g.session.id, g.eventNames, sorted[i - 1]);
      }
    }
  }

  /** In a topological order of a parent-closed table, parents come first. */
  lemma SortedReplayable(g: State, sorted: seq<Node>)
    requires Loadable(g) && SortedNodes(g.nodes, sorted)
    ensures Replayable(g.session.id, WireNodes(sorted))
  {
    var ws, s := WireNodes(sorted), IDs(sorted);
    forall k | 0 <= k < |ws| ensures ReplayableAt(g.session.id, ws, k) {
      var n := sorted[k];
      assert n in sorted && LoadableNode(g, g.nodes[n.id]);
      NodeRoundTrip(n);
      assert DepsEarlier(DepMap(g.nodes), s, k);
      forall p | p in ws[k].Parents() ensures Before(ws, k, p) {
        ParentIsDependency(g.nodes, n.id, p);
        var j :| 0 <= j < k && s[..k][j] == p;
        assert ws[j].id == p;
      }
    }
  }

  lemma WireReplay(g: State, sorted: seq<Node>)
    requires Loadable(g) && SortedNodes(g.nodes, sorted)
    ensures var h := g.(eventNames := SynthNames(g));
      && OverTheWire(OpenLog(h, sorted)) == OpenLog(h, WireNodes(sorted))
      && ReplayAll(OpenLog(h, WireNodes(sorted))) == Ok(OpenState(h, WireNodes(sorted)))
  {
    var h := g.(eventNames := SynthNames(g));
    WireOpenLog(h, sorted);
    SortedReplayable(g, sorted);
    ReplayOpenLog(h, WireNodes(sorted));
  }

  lemma LoadOpen(g: State, sorted: seq<Node>)
    requires Loadable(g) && SortedNodes(g.nodes, sorted) && !g.closed
    ensures Restore(OverTheWire(SynthLog(g, sorted))) == Ok(Received(g, sorted))
  {
    WireReplay(g, sorted);
    assert SynthLog(g, sorted) == OpenLog(g.(eventNames := SynthNames(g)), sorted);
  }

  lemma LoadClosed(g: State, sorted: seq<Node>)
    requires Loadable(g) && SortedNodes(g.nodes, sorted) && g.closed
    ensures Restore(OverTheWire(SynthLog(g, sorted))) ==
            if EndSurvives(g) then Ok(Received(g, sorted)) else Err(UnexpectedSessionStart(|sorted| + 1))
  {
    var h := g.(eventNames := SynthNames(g));
    WireReplay(g, sorted);
    var e := EndEvent(g.session.id, SynthNames(g), g.session.timestamp, g.terminalNodeID, g.endReason);
    WireEnd(h, sorted, e);
    assert SynthLog(g, sorted) == OpenLog(h, sorted) + [e];
  }

  /**
   Loading never fails on a stored graph, except when the session ended with an unknown reason and no
   terminal node: such an end event is taken for a second start.
   */
  lemma LoadSucceeds(g: State, sorted: seq<Node>)
    requires Loadable(g) && SortedNodes(g.nodes, sorted)
    ensures Restore(OverTheWire(SynthLog(g, sorted))).Ok? <==> EndSurvives(g)
    ensures EndSurvives(g) ==> Restore(OverTheWire(SynthLog(g, sorted))) == Ok(Received(g, sorted))
  {
    if g.closed { LoadClosed(g, sorted); } else { LoadOpen(g, sorted); }
  }

  lemma WireEnd(h: State, sorted: seq<Node>, e: Event)
    requires ReplayAll(OverTheWire(OpenLog(h, sorted))) == Ok(OpenState(h, WireNodes(sorted)))
    requires OverTheWire(OpenLog(h, sorted)) == OpenLog(h, WireNodes(sorted))
    requires e.kind == SessionEnded && e.node.None? && e.spawnedFrom.None?
    ensures var r := Restore(OverTheWire(OpenLog(h, sorted) + [e]));
      var open := OpenState(h, WireNodes(sorted));
      if WireReason(e.reason) == "" && e.terminalNodeID == NO_ID then r == Err(UnexpectedSessionStart(|sorted| + 1))
      else r == Ok(open.(eventNames := open.eventNames.(sessionEnded := e.name), closed := true,
                         terminalNodeID := e.terminalNodeID, endReason := WireReason(e.reason),
                         events := open.events + [e.(reason := WireReason(e.reason))]))
  {
    hide EventToProto;
    EventRoundTrip(e);
    var e' := EventFromProto(EventToProto(e));
    var log := OverTheWire(OpenLog(h, sorted));
    assert OverTheWire(OpenLog(h, sorted) + [e]) == log + [e'];
    assert (log + [e'])[..|log|] == log;
  }
}
