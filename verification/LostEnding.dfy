/** A session in the store whose ending keeps it from loading through sgpd. */
module LostEnding {
  import opened Types
  import opened GraphInvariant
  import opened Replay
  import opened TopoOrder
  import opened TopoSort
  import opened Storage
  import opened Sgpd
  import opened Quads
  import opened CayleyStore
  import opened StoreLoad
  import opened WriteThrough
  import opened StoreTheorems
  import opened Sessions
  import opened StoreRuns
  import opened WatchSnapshot

  const SESSION := Session(ID("s"), 0, None)
  const TIMED_OUT := Entry(SESSION, [], EndedWith("timeout", NO_ID))

  /** Created, and ended with a reason of its own before any node was written. */
  const CALLS := [Create(SESSION), Finish(ID("s"), "timeout", NO_ID)]

  lemma CallsAllowed() returns (k: Kept)
    ensures AfterCalls(CALLS) == Some(k) && Faithful(k) && k.table == map[ID("s") := TIMED_OUT]
  {
    hide Faithful;
    assert ID("s").text[0] == 's' && |ID("s").text| == 1 && |GLOBAL_SESSIONS.text| > 1;
    var create := [Create(SESSION)];
    assert CALLS[..1] == create && create[..0] == [];
    assert AfterCalls(create) == Some(Perform(EMPTY_STORE, Create(SESSION)));
    k := AfterCalls(CALLS).value;
    RunsAreFaithful(CALLS);
  }

  /** Whatever a load reads: the session is closed, for a reason unknown to the wire, without a terminal node. */
  lemma ReadsTimeout(quads: set<Quad>, ld: Loaded)
    requires EntryHeld(quads, ID("s"), TIMED_OUT) && LoadRead(quads, ID("s"), ld)
    ensures ld.session == SESSION && ld.status == StatusClosed && ld.reason == "timeout" && ld.terminal == NO_ID
    ensures NodeMap(ld.nodes) == map[]
  {
    hide Holds, SessionRead, NodesRead, NodeMap, First;
    SessionReadBack(quads, SESSION, [], TIMED_OUT.ending, ld.session, ld.status);
    var er, en :|
      && First(quads, ID("s"), PEndReason, er) && First(quads, ID("s"), PEndNode, en)
      && ld.reason == ParseString(er) && ld.terminal == ID(ParseString(en));
    EndReadBack(quads, SESSION, [], "timeout", NO_ID, er, en);
    if id :| id in NodeMap(ld.nodes) { var i := LoadedIsStored(quads, ID("s"), TIMED_OUT, ld, id); }
  }

  lemma TimeoutLoadable(ld: Loaded, sorted: seq<Node>)
    requires ld.session == SESSION && ld.status == StatusClosed && ld.reason == "timeout" && ld.terminal == NO_ID
    requires NodeMap(ld.nodes) == map[]
    ensures Loadable(LoadedGraph(ld, sorted)) && !EndSurvives(LoadedGraph(ld, sorted))
  {
    var D := DepMap(NodeMap(ld.nodes));
    OrderedIsAcyclic(D, []);
    assert "timeout"[0] == 't' && REASON_COMPLETE[0] == 'c' && REASON_FAILED[0] == 'f';
    assert ID("s").text[0] == 's' && NO_ID.text == "";
  }

  /** The session can be loaded from the store. */
  lemma TimeoutReads(quads: set<Quad>) returns (ld: Loaded)
    requires EntryHeld(quads, ID("s"), TIMED_OUT)
    ensures LoadRead(quads, ID("s"), ld)
  {
    hide SessionRead, First, FactAt;
    StampKept(quads, ID("s"), TIMED_OUT);
    assert Quad(ID("s"), PTimestamp, TimeText(0), ID("s")) in Out(quads, ID("s"), PTimestamp);
    var s := ReadExists(quads, ID("s"));
    var status :| SessionRead(quads, ID("s"), s, status);
    var h := FirstExists(quads, ID("s"), PHead);
    var er := FirstExists(quads, ID("s"), PEndReason);
    var en := FirstExists(quads, ID("s"), PEndNode);
    SessionReadBack(quads, SESSION, [], TIMED_OUT.ending, s, status);
    forall q ensures q !in In(quads, IRI(ID("s")), PSession) { assert MemberAt(quads, ID("s"), [], q); }
    assert Lists([], In(quads, IRI(ID("s")), PSession)) && NodesRead(quads, [], []);
    ld := Loaded(s, status, ID(ParseString(h)), ParseString(er), ID(ParseString(en)), []);
  }

  /** The store accepts both calls, and yet no load of this session gets through to a client. */
  lemma TimeoutNeverLoads() returns (quads: set<Quad>)
    ensures AfterCalls(CALLS).Some? && quads == AfterCalls(CALLS).value.quads
    ensures exists ld :: LoadRead(quads, ID("s"), ld)
    ensures forall ld, sorted, again ::
      LoadRead(quads, ID("s"), ld) && SortedNodes(LoadedGraph(ld, sorted).nodes, again) ==>
        Restore(OverTheWire(SynthLog(LoadedGraph(ld, sorted), again))).Err?
  {
    hide LoadRead, SortedNodes, Restore, OverTheWire, SynthLog, Loadable, EndSurvives, Holds, NodeMap;
    var k := CallsAllowed();
    quads := k.quads;
    assert EntryAt(k, ID("s"));
    var some := TimeoutReads(quads);
    forall ld, sorted, again | LoadRead(quads, ID("s"), ld) && SortedNodes(LoadedGraph(ld, sorted).nodes, again)
      ensures Restore(OverTheWire(SynthLog(LoadedGraph(ld, sorted), again))).Err?
    {
      ReadsTimeout(quads, ld);
      TimeoutLoadable(ld, sorted);
      LoadSucceeds(LoadedGraph(ld, sorted), again);
    }
  }
}
