/** The history a stream replays: the session is loaded from the store and turned into events. */
module WatchSnapshot {
  import opened Types
  import opened GraphState
  import opened GraphInvariant
  import opened TopoOrder
  import opened TopoSort
  import opened Storage
  import opened Quads
  import opened CayleyStore
  import opened NodeCodec
  import opened StoreLoad
  import opened WriteThrough
  import opened StoreTheorems
  import opened StoreRuns

  /** One possible course of a load: what was read, how it was sorted, and sorted again for the events. */
  ghost predicate LoadCourse(quads: set<Quad>, sid: ID, ld: Loaded, sorted: seq<Node>, resorted: seq<Node>) {
    && LoadRead(quads, sid, ld)
    && SortedNodes(NodeMap(ld.nodes), sorted)
    && SortedNodes(LoadedGraph(ld, sorted).nodes, resorted)
  }

  /** The events a stream may send as the history; an unknown session has none. */
  ghost predicate Snapshot(quads: set<Quad>, sid: ID, history: seq<Event>) {
    if Out(quads, sid, PTimestamp) == {} then history == []
    else exists ld, sorted, resorted ::
      LoadCourse(quads, sid, ld, sorted, resorted) && history == SynthLog(LoadedGraph(ld, sorted), resorted)
  }

  /** The history shows node n as read back. */
  ghost predicate Shows(history: seq<Event>, n: Node) {
    exists m :: m in AppendOrder(history) && m.id == n.id && ReadAs(n, m)
  }

  lemma SynthLogNodes(g: State, sorted: seq<Node>)
    ensures AppendOrder(SynthLog(g, sorted)) == sorted
  {
    var names := SynthNames(g);
    var head, mid := [StartEvent(g.session, names)], NodeEvents(g.session.id, names, sorted);
    var tail := if g.closed
      then [EndEvent(g.session.id, names, g.session.timestamp, g.terminalNodeID, g.endReason)] else [];
    AppendOrderConcat(head + mid, tail);
    AppendOrderConcat(head, mid);
    AppendOrderNodeEvents(g.session.id, names, sorted);
    NoEventsNoNodes();
    NoNodeIn(head[0]);
    if g.closed { NoNodeIn(tail[0]); }
  }

  lemma SortedShows(m: map<ID, Node>, sorted: seq<Node>, id: ID)
    requires SortedNodes(m, sorted) && id in m
    ensures m[id] in sorted
  {
    var k := IndexIn(IDs(sorted), id);
    assert sorted[k] in sorted;
  }

  lemma {:induction false} NodeMapMember(ns: seq<Node>, id: ID) returns (k: nat)
    requires id in NodeMap(ns)
    ensures k < |ns| && ns[k].id == id && NodeMap(ns)[id] == ns[k]
  {
    var m := |ns| - 1;
    if ns[m].id == id { k := m; } else { k := NodeMapMember(ns[..m], id); }
  }

  /** Every loaded node belongs to the session. */
  lemma LoadedIsStored(quads: set<Quad>, sid: ID, e: Entry, ld: Loaded, id: ID) returns (i: nat)
    requires EntryHeld(quads, sid, e) && LoadRead(quads, sid, ld) && id in NodeMap(ld.nodes)
    ensures i < |e.nodes| && e.nodes[i].id == id && NodeRead(quads, id, NodeMap(ld.nodes)[id])
  {
    hide NodeRead, SessionRead, NodeMap, EndRead, First;
    var qs: seq<Quad> :| Lists(qs, In(quads, IRI(sid), PSession)) && NodesRead(quads, qs, ld.nodes);
    var k := NodeMapMember(ld.nodes, id);
    assert qs[k] in qs && MemberAt(quads, sid, e.nodes, qs[k]);
    ReadKeepsID(quads, qs[k].subj, ld.nodes[k]);
    i :| 0 <= i < |e.nodes| && qs[k] == Quad(e.nodes[i].id, PSession, IRI(sid), sid);
  }

  /** Every node of the session is loaded. */
  lemma StoredIsLoaded(quads: set<Quad>, sid: ID, e: Entry, ld: Loaded, i: nat)
    requires EntryHeld(quads, sid, e) && LoadRead(quads, sid, ld) && i < |e.nodes|
    ensures e.nodes[i].id in NodeMap(ld.nodes)
  {
    hide NodeRead, SessionRead, NodeMap, EndRead, First;
    var qs: seq<Quad> :| Lists(qs, In(quads, IRI(sid), PSession)) && NodesRead(quads, qs, ld.nodes);
    var q := Quad(e.nodes[i].id, PSession, IRI(sid), sid);
    assert MemberAt(quads, sid, e.nodes, q) && MemberOf(sid, e.nodes, q);
    assert q in In(quads, IRI(sid), PSession) && q in qs;
    var k :| 0 <= k < |qs| && qs[k] == q;
    ReadKeepsID(quads, qs[k].subj, ld.nodes[k]);
    NodeMapKeys(ld.nodes);
    assert Before(ld.nodes, |ld.nodes|, e.nodes[i].id);
  }

  lemma SnapshotCourse(quads: set<Quad>, sid: ID, e: Entry, history: seq<Event>)
    returns (ld: Loaded, sorted: seq<Node>, resorted: seq<Node>)
    requires EntryHeld(quads, sid, e) && Snapshot(quads, sid, history)
    ensures LoadCourse(quads, sid, ld, sorted, resorted) && AppendOrder(history) == resorted
  {
    hide LoadCourse, Holds;
    StampKept(quads, sid, e);
    assert Quad(sid, PTimestamp, TimeText(e.session.timestamp), sid) in Out(quads, sid, PTimestamp);
    ld, sorted, resorted :| LoadCourse(quads, sid, ld, sorted, resorted)
      && history == SynthLog(LoadedGraph(ld, sorted), resorted);
    SynthLogNodes(LoadedGraph(ld, sorted), resorted);
  }

  /** The history of a stored session shows every node stored for it. */
  lemma SnapshotShowsStored(quads: set<Quad>, sid: ID, e: Entry, history: seq<Event>, i: nat)
    requires EntryHeld(quads, sid, e) && Snapshot(quads, sid, history) && i < |e.nodes|
    ensures Shows(history, e.nodes[i])
  {
    hide Snapshot, LoadRead, NodeRead, Owns, NodeMap, FromSorted, Holds, ReadAs;
    var ld, sorted, resorted := SnapshotCourse(quads, sid, e, history);
    var n, nodes := e.nodes[i], NodeMap(ld.nodes);
    StoredIsLoaded(quads, sid, e, ld, i);
    var k := LoadedIsStored(quads, sid, e, ld, n.id);
    SessionIsNoNode(quads, e.session, e.nodes, e.ending, i);
    NodeCodec.NodeRoundTrip(quads, n, nodes[n.id]);
    LoadedTable(ld, sorted);
    SortedShows(nodes, resorted, n.id);
    ReadKeepsID(quads, n.id, nodes[n.id]);
  }

  lemma LoadedTable(ld: Loaded, sorted: seq<Node>)
    ensures LoadedGraph(ld, sorted).nodes == NodeMap(ld.nodes)
  {
  }

  /** And it shows no other. */
  lemma SnapshotShowsOnlyStored(quads: set<Quad>, sid: ID, e: Entry, history: seq<Event>, m: Node)
    requires EntryHeld(quads, sid, e) && Snapshot(quads, sid, history) && m in AppendOrder(history)
    ensures exists i :: 0 <= i < |e.nodes| && e.nodes[i].id == m.id
  {
    hide Snapshot, LoadRead, NodeRead, NodeMap, FromSorted, Holds;
    var ld, sorted, resorted := SnapshotCourse(quads, sid, e, history);
    LoadedTable(ld, sorted);
    var i := LoadedIsStored(quads, sid, e, ld, m.id);
  }
}
