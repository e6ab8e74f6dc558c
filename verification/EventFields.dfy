/** What the events of a log carry, field by field. */
module EventFields {
  import opened Types
  import opened GraphState
  import opened GraphInvariant

  /** e opens this session. */
  ghost predicate Opens(e: Event, sess: Session, name: string) {
    && e.kind == SessionStart && e.name == name && e.sessionID == sess.id && e.timestamp == sess.timestamp
    && e.spawnedFrom == sess.spawnedFrom && e.node == None && e.terminalNodeID == NO_ID && e.reason == ""
  }

  /** e carries node n, whole, under the node's own timestamp. */
  ghost predicate Carries(e: Event, sid: ID, n: Node, name: string) {
    && e.kind == NodeAppended && e.name == name && e.sessionID == sid && e.timestamp == n.timestamp
    && e.spawnedFrom == None && e.node == Some(n) && e.terminalNodeID == NO_ID && e.reason == ""
  }

  /** e ends a session. */
  ghost predicate Ends(e: Event, sid: ID, at: Time, terminal: ID, reason: string, name: string) {
    && e.kind == SessionEnded && e.name == name && e.sessionID == sid && e.timestamp == at
    && e.spawnedFrom == None && e.node == None && e.terminalNodeID == terminal && e.reason == reason
  }

  /** The log opens the session, carries the nodes in order, and then has `ended` more events. */
  ghost predicate LogCarries(log: seq<Event>, sess: Session, ns: seq<Node>, names: EventNames, ended: nat) {
    && |log| == 1 + |ns| + ended && Opens(log[0], sess, names.sessionStart)
    && forall i :: 0 <= i < |ns| ==> Carries(log[1 + i], sess.id, ns[i], names.nodeAppended)
  }

  /** The log of a reachable graph tells its session, every node in append order, and its ending. */
  lemma ReachableLogCarries(g: State) returns (ended: Time)
    requires Reachable(g)
    ensures !g.started ==> g.events == []
    ensures g.started ==>
      && LogCarries(g.events, g.session, AppendOrder(g.events), g.eventNames, if g.closed then 1 else 0)
      && (g.closed ==> Ends(g.events[|g.events| - 1], g.session.id, ended, g.headID, g.endReason,
                             g.eventNames.sessionEnded))
  {
    hide AppendOrder;
    ReachableInv(g);
    ended :| Agrees(g, AppendOrder(g.events), ended);
  }
}
