/** The event-shaped client of sgpd and the handler behind it. */
module SgpdClient {
  import opened Types
  import opened GraphState
  import opened Quads
  import opened CayleyStore
  import opened Convert

  datatype Failure = InvalidArgument | Internal(error: Error)

  /** Handler and client in one: the transport between them is a call. */
  class Client {
    const store: Store

    constructor (store: Store)
      ensures this.store == store
    {
      this.store := store;
    }

    /** The server: kinds are inferred from the decoded event, never sent. */
    method AppendEvent(sessionID: string, pb: PbEvent) returns (err: Option<Failure>)
      modifies store
      ensures sessionID == "" ==> err == Some(InvalidArgument) && store.quads == old(store.quads)
      ensures sessionID != "" ==>
        var e := EventFromProto(pb);
        match ClassifyEvent(e)
        case SessionStart =>
          err == None && store.quads
            == AfterCreate(old(store.quads), Session(ID(sessionID), e.timestamp, e.spawnedFrom))
        case NodeAppended => WriteEffect(old(store.quads), e.node.value, store.quads, err)
        case SessionEnded =>
          err == None && store.quads == AfterEnd(old(store.quads), ID(sessionID), e.reason, e.terminalNodeID)
    {
      if sessionID == "" { return Some(InvalidArgument); }
      var event := EventFromProto(pb);
      var failed: Option<Error>;
      match ClassifyEvent(event) {
        case SessionStart =>
          failed := store.CreateSession(Session(ID(sessionID), event.timestamp, event.spawnedFrom));
        case NodeAppended =>
          failed := store.WriteNode(event.node.value);
        case SessionEnded =>
          failed := store.EndSession(ID(sessionID), event.reason, event.terminalNodeID);
      }
      err := if failed.Some? then Some(Internal(failed.value)) else None;
    }

    method CreateSession(sess: Session) returns (err: Option<Failure>)
      modifies store
      ensures if sess.id == NO_ID then err == Some(InvalidArgument) && store.quads == old(store.quads)
              else err == None && store.quads == AfterCreate(old(store.quads), sess)
    {
      var event := StartEvent(sess, DEFAULT_NAMES);
      EventRoundTrip(event);
      assert sess.id.text == "" <==> sess.id == NO_ID;
      err := AppendEvent(sess.id.text, EventToProto(event));
    }

    /** What reaches the store is the wire projection of the node. */
    method WriteNode(n: Node) returns (err: Option<Failure>)
      modifies store
      ensures if n.sessionID == NO_ID then err == Some(InvalidArgument) && store.quads == old(store.quads)
              else WriteEffect(old(store.quads), WireNode(n), store.quads, err)
    {
      var event := NodeEvent(n.sessionID, DEFAULT_NAMES, n);
      EventRoundTrip(event);
      assert n.sessionID.text == "" <==> n.sessionID == NO_ID;
      err := AppendEvent(n.sessionID.text, EventToProto(event));
    }

    /** An end with an unknown reason and no terminal node is taken for a start. */
    method EndSession(sid: ID, reason: string, terminal: ID, now: Time) returns (err: Option<Failure>)
      modifies store
      ensures if sid == NO_ID then err == Some(InvalidArgument) && store.quads == old(store.quads)
              else err == None && store.quads == EndEffect(old(store.quads), sid, reason, terminal, now)
    {
      var event := EndEvent(sid, DEFAULT_NAMES, now, terminal, reason);
      EventRoundTrip(event);
      assert sid.text == "" <==> sid == NO_ID;
      err := AppendEvent(sid.text, EventToProto(event));
    }
  }

  /** What an EndSession leaves in the store. */
  ghost function EndEffect(before: set<Quad>, sid: ID, reason: string, terminal: ID, now: Time): set<Quad> {
    if reason == REASON_COMPLETE || reason == REASON_FAILED || terminal != NO_ID
    then AfterEnd(before, sid, WireReason(reason), terminal)
    else AfterCreate(before, Session(sid, now, None))
  }

  /** What a WriteNode may do to the store. */
  ghost predicate WriteEffect(before: set<Quad>, n: Node, after: set<Quad>, err: Option<Failure>) {
    if Out(before, n.sessionID, PTimestamp) == {}
      then err == Some(Internal(SessionNotFound(n.sessionID))) && after == before
    else if !(Replaced(before, n.sessionID, PHead) <= before) then err == Some(Internal(QuadMissing)) && after == before
    else err == None && after == AfterWrite(before, n)
  }
}
