/** A session written by one harness at a time: a chain of plain nodes, each under the one before it. */
module Chain {
  import opened Types
  import opened GraphState
  import opened GraphInvariant
  import opened GraphTheorems
  import opened Lineage
  import opened TopoOrder
  import opened TopoSort
  import opened Storage
  import opened Quads
  import opened CayleyStore
  import opened NodeCodec
  import opened StoreLoad
  import opened WriteThrough
  import opened StoreTheorems

  /** The identifiers harnesses use: UUIDs, hence no colon. */
  predicate Plain(id: ID) {
    id != NO_ID && ColonFree(id.text)
  }

  function ParentsAt(ns: seq<Node>, k: nat): seq<ID>
    requires k <= |ns|
  {
    if k == 0 then [] else [ns[k - 1].id]
  }

  ghost predicate Link(sid: ID, ns: seq<Node>, k: nat)
    requires k < |ns|
  {
    ns[k] == PlainNode(sid, ns[k].message, ParentsAt(ns, k), ns[k].id, ns[k].timestamp)
    && Plain(ns[k].id) && ns[k].message.Valid()
  }

  /** ns is a single chain in session sid. */
  ghost predicate IsChain(sid: ID, ns: seq<Node>) {
    && (forall k :: 0 <= k < |ns| ==> Link(sid, ns, k))
    && forall i, j :: 0 <= i < j < |ns| ==> ns[i].id != ns[j].id
  }

  /** The graph g holds the chain ns, open, with the head at its end. */
  ghost predicate GraphIs(g: State, sid: ID, ns: seq<Node>) {
    && g.session.id == sid && sid != NO_ID && g.started && !g.closed && g.eventNames.nodeAppended != ""
    && g.nodes == NodeMap(ns) && g.headID == LastID(ns)
  }

  lemma LinkParents(sid: ID, ns: seq<Node>, k: nat)
    requires k < |ns| && Link(sid, ns, k)
    ensures ns[k].Parents() == ParentsAt(ns, k)
    ensures k > 0 ==> ns[k].edges == [EdgeRef(PARENT, ns[k - 1].id, 0.0)]
    ensures k == 0 ==> ns[k].edges == []
  {
    ParentIDsOfParentEdges(ParentsAt(ns, k));
  }

  lemma ChainPrefix(sid: ID, ns: seq<Node>, k: nat)
    requires IsChain(sid, ns) && k <= |ns|
    ensures IsChain(sid, ns[..k])
  {
    forall i | 0 <= i < k ensures Link(sid, ns[..k], i) { assert Link(sid, ns, i); }
  }

  lemma ChainExtend(sid: ID, ns: seq<Node>, n: Node)
    requires IsChain(sid, ns) && Plain(n.id) && n.message.Valid()
    requires n == PlainNode(sid, n.message, ParentsAt(ns, |ns|), n.id, n.timestamp)
    requires forall i :: 0 <= i < |ns| ==> ns[i].id != n.id
    ensures IsChain(sid, ns + [n])
  {
    var all := ns + [n];
    forall k | 0 <= k < |all| ensures Link(sid, all, k) {
      if k < |ns| { assert Link(sid, ns, k); }
    }
  }

  /** The canonical lineage of the head is the whole chain. */
  lemma {:induction false} ChainLineage(sid: ID, ns: seq<Node>)
    requires IsChain(sid, ns) && ns != []
    ensures IsLineage(NodeMap(ns), LastID(ns), ns)
  {
    var k := |ns| - 1;
    assert Link(sid, ns, k);
    LinkParents(sid, ns, k);
    if k > 0 {
      ChainPrefix(sid, ns, k);
      ChainLineage(sid, ns[..k]);
      NodeMapKeys(ns[..k]);
      assert NodeMap(ns) == NodeMap(ns[..k])[ns[k].id := ns[k]];
      LineageKept(NodeMap(ns[..k]), NodeMap(ns), ns[k - 1].id, ns[..k]);
    }
  }

  lemma ChainWellOrdered(sid: ID, ns: seq<Node>)
    requires IsChain(sid, ns)
    ensures WellOrdered(sid, ns)
  {
    forall k | 0 <= k < |ns| ensures WellPlaced(sid, ns, k) {
      assert Link(sid, ns, k);
      LinkParents(sid, ns, k);
      forall i | 0 <= i <= k ensures Unnamed(ns[i].edges, ns[k].id) {
        assert Link(sid, ns, i);
        LinkParents(sid, ns, i);
      }
      if k > 0 { assert Before(ns, k, ns[k - 1].id); }
    }
  }

  /** A graph whose append order is ns. */
  ghost function GraphOf(sess: Session, ns: seq<Node>): State {
    var g := State(sess, DEFAULT_NAMES, NodeMap(ns), ChildIndex(ns), [], LastID(ns), NO_ID, "", true, false);
    g.(events := Log(g, ns, 0))
  }

  lemma ChainRanked(sess: Session, ns: seq<Node>)
    requires IsChain(sess.id, ns) && sess.id != NO_ID
    ensures Agrees(GraphOf(sess, ns), ns, 0)
    ensures Ranked(NodeMap(ns), Rank(ns))
    ensures Acyclic(DepMap(NodeMap(ns)))
  {
    var g := GraphOf(sess, ns);
    ChainWellOrdered(sess.id, ns);
    AgreesRanked(g, ns, 0);
    AppendOrderSorts(g, ns, 0);
    OrderedIsAcyclic(DepMap(g.nodes), IDs(ns));
  }

  /** Appending under the head never fails and makes the chain one longer. */
  lemma AppendExtends(g: State, sid: ID, ns: seq<Node>, message: Message, id: ID, now: Time)
    requires GraphIs(g, sid, ns) && IsChain(sid, ns) && message.Valid() && Plain(id)
    requires forall i :: 0 <= i < |ns| ==> ns[i].id != id
    ensures var n := PlainNode(sid, message, ParentsAt(ns, |ns|), id, now);
      Append(g, message, ParentsAt(ns, |ns|), id, now) == (AddNode(g, n), Appended(n))
      && GraphIs(AddNode(g, n), sid, ns + [n]) && IsChain(sid, ns + [n])
  {
    var parents := ParentsAt(ns, |ns|);
    HeadValidates(sid, ns);
    assert g.nodes == map[] <==> ns == [] by {
      NodeMapKeys(ns);
      if ns != [] { assert Before(ns, |ns|, ns[0].id); }
    }
    assert AppendCheck(g, message, parents) == Ok(parents);
    var n := PlainNode(sid, message, parents, id, now);
    ViewsExtend(ns, n);
    ChainExtend(sid, ns, n);
  }

  lemma HeadValidates(sid: ID, ns: seq<Node>)
    requires IsChain(sid, ns)
    ensures ValidateReferences(NodeMap(ns), ParentsAt(ns, |ns|)) == Ok(ParentsAt(ns, |ns|))
  {
    if ns != [] {
      assert Link(sid, ns, |ns| - 1);
      NodeMapLookup(ns, |ns| - 1);
      OneValidates(NodeMap(ns), ns[|ns| - 1].id);
    }
  }

  lemma OneValidates(nodes: map<ID, Node>, id: ID)
    requires id in nodes && id != NO_ID
    ensures ValidateReferences(nodes, [id]) == Ok([id])
  {
    var ids, none: seq<ID> := [id], [];
    assert ids[..|ids| - 1] == none && ids[|ids| - 1] == id;
    assert none + [id] == ids;
  }

  // ----- in the store -----

  /** The store holds exactly the chain ns for the open session sess. */
  ghost predicate Stored(quads: set<Quad>, sess: Session, ns: seq<Node>) {
    IsChain(sess.id, ns) && Plain(sess.id) && Holds(quads, sess, ns, StillOpen)
  }

  lemma ChainClean(sid: ID, ns: seq<Node>)
    requires IsChain(sid, ns)
    ensures forall i :: 0 <= i < |ns| ==> CleanEdges(ns[i])
  {
    forall i | 0 <= i < |ns| ensures CleanEdges(ns[i]) {
      assert Link(sid, ns, i);
      LinkParents(sid, ns, i);
      if i > 0 {
        assert Link(sid, ns, i - 1);
        assert EDGE_PREFIX[4] == ':';
      }
    }
  }

  /** A chain node comes back from the store unchanged. */
  lemma StoredLink(sid: ID, ns: seq<Node>, k: nat, m: Node)
    requires k < |ns| && Link(sid, ns, k) && CleanEdges(ns[k]) && ReadAs(ns[k], m)
    ensures m == ns[k]
  {
    var n := ns[k];
    LinkParents(sid, ns, k);
    StoredFormIsNode(n);
    assert m.(edges := []) == n.(edges := []);
    if k == 0 {
      SingleMember([], m.edges);
    } else {
      assert Normal(n.edges[0]) == n.edges[0];
      SingleMember(n.edges, m.edges);
    }
    assert m == m.(edges := []).(edges := m.edges);
  }

  lemma StoredTable(sess: Session, ns: seq<Node>, nodes': map<ID, Node>)
    requires IsChain(sess.id, ns) && TableReadAs(NodeMap(ns), nodes')
    ensures nodes' == NodeMap(ns)
  {
    hide NodeMap, Link, CleanEdges, ReadAs;
    NodeMapKeys(ns);
    ChainClean(sess.id, ns);
    forall id | id in nodes' ensures nodes'[id] == NodeMap(ns)[id] {
      var k :| 0 <= k < |ns| && ns[k].id == id;
      NodeMapLookup(ns, k);
      assert Link(sess.id, ns, k);
      StoredLink(sess.id, ns, k, nodes'[id]);
    }
  }

  /** Loading a stored chain gives the chain back. */
  lemma ChainLoads(quads: set<Quad>, sess: Session, ns: seq<Node>, ld: Loaded, sorted: seq<Node>)
    requires Stored(quads, sess, ns) && LoadRead(quads, sess.id, ld)
    ensures Acyclic(DepMap(NodeMap(ld.nodes)))
    ensures GraphIs(LoadedGraph(ld, sorted), sess.id, ns)
  {
    SessionReadBack(quads, sess, ns, StillOpen, ld.session, ld.status);
    var h :| First(quads, sess.id, PHead, h) && ld.headID == ID(ParseString(h));
    HeadReadBack(quads, sess, ns, StillOpen, h);
    var qs :| Lists(qs, In(quads, IRI(sess.id), PSession)) && NodesRead(quads, qs, ld.nodes);
    NodesReadBack(quads, sess, ns, StillOpen, qs, ld.nodes);
    StoredTable(sess, ns, NodeMap(ld.nodes));
    ChainRanked(sess, ns);
  }

  // ----- identifiers still to come -----

  lemma WriteLeavesUnused(quads: set<Quad>, sess: Session, ns: seq<Node>, n: Node, id: ID)
    requires Stored(quads, sess, ns) && n.sessionID == sess.id && Plain(n.id)
    requires UnusedNode(quads, id) && Plain(id) && id != n.id
    ensures UnusedNode(AfterWrite(quads, n), id)
  {
    TimestampHeld(quads, sess, ns, StillOpen);
    var t := Quad(sess.id, PTimestamp, TimeText(sess.timestamp), sess.id);
    assert t in quads && t.subj == sess.id;
    forall q | q in AfterWrite(quads, n) ensures q.subj != id && forall k, x :: q.subj != EdgeIRI(id, k, x) {
      if q in NodeQuads(n) {
        NodeQuadShape(n, q);
        NodeQuadSubject(n, q, id);
      }
    }
  }

  lemma NodeQuadSubject(n: Node, q: Quad, id: ID)
    requires Plain(n.id) && Plain(id) && n.id != id
    requires q.subj == n.id || exists k, t :: q.subj == EdgeIRI(n.id, k, t)
    ensures q.subj != id && forall k, x :: q.subj != EdgeIRI(id, k, x)
  {
    forall m: ID, k, t ensures !ColonFree(EdgeIRI(m, k, t).text) {
      assert EdgeIRI(m, k, t).text[4] == ':';
    }
    forall k, x, k', x' ensures EdgeIRI(id, k, x) != EdgeIRI(n.id, k', x') {
      if EdgeIRI(id, k, x) == EdgeIRI(n.id, k', x') { EdgeIRIOwner(id, k, x, n.id, k', x'); }
    }
  }

  /** An edge IRI determines its colon-free node. */
  lemma EdgeIRIOwner(n: ID, k: EdgeKind, t: ID, n': ID, k': EdgeKind, t': ID)
    requires ColonFree(n.text) && ColonFree(n'.text) && EdgeIRI(n, k, t) == EdgeIRI(n', k', t')
    ensures n == n'
  {
    var tail, tail' := Join(k.name, t.text), Join(k'.name, t'.text);
    SplitJoin("edge", Join(n.text, tail), 3);
    SplitJoin("edge", Join(n'.text, tail'), 3);
    SplitJoin(n.text, tail, 2);
    SplitJoin(n'.text, tail', 2);
    var s, s' := SplitN(EdgeIRI(n, k, t).text, 3), SplitN(EdgeIRI(n', k', t').text, 3);
    assert s[1] == n.text && s'[1] == n'.text;
  }
}
