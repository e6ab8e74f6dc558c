/** A graph written through to the store loads back as the same graph. */
module StoreTheorems {
  import opened Types
  import opened Sequences
  import opened GraphState
  import opened GraphInvariant
  import opened GraphTheorems
  import opened Lineage
  import opened TopoOrder
  import opened TopoSort
  import opened Storage
  import opened SessionGraph
  import opened GraphShape
  import opened Quads
  import opened CayleyStore
  import opened NodeCodec
  import opened StoreLoad
  import opened WriteThrough

  // ----- session metadata, head and ending -----

  lemma FactRead(quads: set<Quad>, sess: Session, ns: seq<Node>, e: Ending, p: Pred, v: Option<Value>)
    requires Holds(quads, sess, ns, e) && First(quads, sess.id, p, v)
    ensures v.Some? ==> exists q :: SessionFact(sess, LastID(ns), e, q) && q.pred == p && q.obj == v.value
    ensures v.None? ==> forall q :: SessionFact(sess, LastID(ns), e, q) ==> q.pred != p
  {
    if v.Some? {
      var q :| q in Out(quads, sess.id, p) && q.obj == v.value;
      assert FactAt(quads, sess, LastID(ns), e, q);
    } else {
      forall q | SessionFact(sess, LastID(ns), e, q) ensures q.pred != p {
        assert FactAt(quads, sess, LastID(ns), e, q);
        assert q.pred == p ==> q in Out(quads, sess.id, p);
      }
    }
  }

  lemma SessionReadBack(quads: set<Quad>, sess: Session, ns: seq<Node>, e: Ending, sess': Session,
                        status: SessionStatus)
    requires Holds(quads, sess, ns, e) && SessionRead(quads, sess.id, sess', status)
    ensures sess' == sess && (status == StatusClosed <==> e.EndedWith?)
  {
    var raw :| RawSessionRead(quads, sess.id, raw) && raw.timestamp.Some? && status == raw.Status()
      && sess' == raw.AsSession(sess.id);
    FactRead(quads, sess, ns, e, PTimestamp, raw.timestamp);
    StatusReadBack(quads, sess, ns, e, raw.status);
    SpawnReadBack(quads, sess, ns, e, raw.spawnedFromSession, raw.spawnedFromNode);
  }

  lemma StatusReadBack(quads: set<Quad>, sess: Session, ns: seq<Node>, e: Ending, st: Option<Value>)
    requires Holds(quads, sess, ns, e) && First(quads, sess.id, PStatus, st)
    ensures ParseString(st) == StatusOf(e)
  {
    FactRead(quads, sess, ns, e, PStatus, st);
    assert SessionFact(sess, LastID(ns), e, Quad(sess.id, PStatus, Text(StatusOf(e)), sess.id));
  }

  lemma SpawnReadBack(quads: set<Quad>, sess: Session, ns: seq<Node>, e: Ending, ss: Option<Value>, sn: Option<Value>)
    requires Holds(quads, sess, ns, e)
    requires First(quads, sess.id, PSpawnedFromSession, ss) && First(quads, sess.id, PSpawnedFromNode, sn)
    ensures sess.spawnedFrom == if ss.Some? && sn.Some?
              then Some(SpawnReference(ID(ParseString(ss)), ID(ParseString(sn)))) else None
  {
    FactRead(quads, sess, ns, e, PSpawnedFromSession, ss);
    FactRead(quads, sess, ns, e, PSpawnedFromNode, sn);
    if sess.spawnedFrom.Some? {
      var r := sess.spawnedFrom.value;
      assert SessionFact(sess, LastID(ns), e, Quad(sess.id, PSpawnedFromSession, IRI(r.sessionID), sess.id));
      assert SessionFact(sess, LastID(ns), e, Quad(sess.id, PSpawnedFromNode, IRI(r.nodeID), sess.id));
    }
  }

  lemma HeadReadBack(quads: set<Quad>, sess: Session, ns: seq<Node>, e: Ending, h: Option<Value>)
    requires Holds(quads, sess, ns, e) && First(quads, sess.id, PHead, h)
    ensures ID(ParseString(h)) == LastID(ns)
  {
    FactRead(quads, sess, ns, e, PHead, h);
    if LastID(ns) != NO_ID {
      assert SessionFact(sess, LastID(ns), e, Quad(sess.id, PHead, IRI(LastID(ns)), sess.id));
    }
  }

  lemma EndReadBack(quads: set<Quad>, sess: Session, ns: seq<Node>, reason: string, terminal: ID, er: Option<Value>,
                    en: Option<Value>)
    requires Holds(quads, sess, ns, EndedWith(reason, terminal))
    requires First(quads, sess.id, PEndReason, er) && First(quads, sess.id, PEndNode, en)
    ensures ParseString(er) == reason && ID(ParseString(en)) == terminal
  {
    var e := EndedWith(reason, terminal);
    FactRead(quads, sess, ns, e, PEndReason, er);
    FactRead(quads, sess, ns, e, PEndNode, en);
    assert SessionFact(sess, LastID(ns), e, Quad(sess.id, PEndReason, Text(reason), sess.id));
    assert SessionFact(sess, LastID(ns), e, Quad(sess.id, PEndNode, IRI(terminal), sess.id));
  }

  // ----- nodes -----

  /** The loaded table holds the same IDs, each as read back. */
  ghost predicate TableReadAs(nodes: map<ID, Node>, nodes': map<ID, Node>) {
    nodes'.Keys == nodes.Keys && forall id :: id in nodes ==> ReadAs(nodes[id], nodes'[id])
  }

  lemma ReadBasics(n: Node, m: Node)
    requires ReadAs(n, m)
    ensures m.id == n.id && m.sessionID == n.sessionID && m.timestamp == n.timestamp && m.message == n.message
    ensures m.kind == n.kind && m.archived == n.archived
  {
    assert m.(edges := []).id == m.id && m.(edges := []).message == m.message;
  }

  /** Each membership quad leads to one node of the session. */
  lemma MemberReadBack(quads: set<Quad>, sess: Session, ns: seq<Node>, e: Ending, q: Quad, m: Node) returns (k: nat)
    requires Holds(quads, sess, ns, e)
    requires q in In(quads, IRI(sess.id), PSession) && NodeRead(quads, q.subj, m)
    ensures k < |ns| && q == Quad(ns[k].id, PSession, IRI(sess.id), sess.id) && ReadAs(ns[k], m) && m.id == ns[k].id
  {
    assert MemberAt(quads, sess.id, ns, q);
    k :| 0 <= k < |ns| && q == Quad(ns[k].id, PSession, IRI(sess.id), sess.id);
    SessionIsNoNode(quads, sess, ns, e, k);
    NodeCodec.NodeRoundTrip(quads, ns[k], m);
    ReadBasics(ns[k], m);
  }

  lemma NodesDistinct(quads: set<Quad>, sess: Session, ns: seq<Node>, e: Ending, qs: seq<Quad>, nodes: seq<Node>,
                      i: nat, j: nat)
    requires Holds(quads, sess, ns, e)
    requires Lists(qs, In(quads, IRI(sess.id), PSession)) && NodesRead(quads, qs, nodes)
    requires i < j < |nodes|
    ensures nodes[i].id != nodes[j].id
  {
    assert qs[i] in qs && qs[j] in qs;
    var k := MemberReadBack(quads, sess, ns, e, qs[i], nodes[i]);
    var l := MemberReadBack(quads, sess, ns, e, qs[j], nodes[j]);
  }

  lemma NodesReadBack(quads: set<Quad>, sess: Session, ns: seq<Node>, e: Ending, qs: seq<Quad>, nodes: seq<Node>)
    requires Holds(quads, sess, ns, e)
    requires forall i, j :: 0 <= i < j < |ns| ==> ns[i].id != ns[j].id
    requires Lists(qs, In(quads, IRI(sess.id), PSession)) && NodesRead(quads, qs, nodes)
    ensures TableReadAs(NodeMap(ns), NodeMap(nodes))
  {
    forall i, j | 0 <= i < j < |nodes| ensures nodes[i].id != nodes[j].id {
      NodesDistinct(quads, sess, ns, e, qs, nodes, i, j);
    }
    NodeMapKeys(ns);
    NodeMapKeys(nodes);
    forall id | id in NodeMap(ns) ensures id in NodeMap(nodes) && ReadAs(NodeMap(ns)[id], NodeMap(nodes)[id]) {
      var k :| 0 <= k < |ns| && ns[k].id == id;
      var i := MemberRead(quads, sess, ns, e, qs, nodes, k);
      NodeMapLookup(ns, k);
      NodeMapLookup(nodes, i);
    }
    forall id | id in NodeMap(nodes) ensures id in NodeMap(ns) {
      var i :| 0 <= i < |nodes| && nodes[i].id == id;
      assert qs[i] in qs;
      var k := MemberReadBack(quads, sess, ns, e, qs[i], nodes[i]);
      NodeMapLookup(ns, k);
    }
  }

  /** Every node of the session is read. */
  lemma MemberRead(quads: set<Quad>, sess: Session, ns: seq<Node>, e: Ending, qs: seq<Quad>, nodes: seq<Node>, k: nat)
    returns (i: nat)
    requires Holds(quads, sess, ns, e) && k < |ns|
    requires Lists(qs, In(quads, IRI(sess.id), PSession)) && NodesRead(quads, qs, nodes)
    requires forall i, j :: 0 <= i < j < |ns| ==> ns[i].id != ns[j].id
    ensures i < |nodes| && nodes[i].id == ns[k].id && ReadAs(ns[k], nodes[i])
  {
    var q := Quad(ns[k].id, PSession, IRI(sess.id), sess.id);
    assert MemberAt(quads, sess.id, ns, q);
    assert MemberOf(sess.id, ns, q);
    assert q in In(quads, IRI(sess.id), PSession) && q in qs;
    i :| 0 <= i < |qs| && qs[i] == q;
    var l := MemberReadBack(quads, sess, ns, e, q, nodes[i]);
  }

  // ----- the loaded graph -----

  /** Everything LoadGraph reads agrees with the graph. */
  lemma LoadReadsGraph(quads: set<Quad>, g: State, ns: seq<Node>, ended: Time, ld: Loaded)
    requires Agrees(g, ns, ended) && Holds(quads, g.session, ns, EndingOf(g))
    requires LoadRead(quads, g.session.id, ld)
    ensures ld.session == g.session && (ld.status == StatusClosed <==> g.closed) && ld.headID == g.headID
    ensures ld.reason == g.endReason && ld.terminal == g.terminalNodeID
    ensures TableReadAs(g.nodes, NodeMap(ld.nodes))
  {
    var e := EndingOf(g);
    SessionReadBack(quads, g.session, ns, e, ld.session, ld.status);
    var h :| First(quads, g.session.id, PHead, h) && ld.headID == ID(ParseString(h));
    HeadReadBack(quads, g.session, ns, e, h);
    if g.closed {
      var er, en :|
        && First(quads, g.session.id, PEndReason, er) && First(quads, g.session.id, PEndNode, en)
        && ld.reason == ParseString(er) && ld.terminal == ID(ParseString(en));
      EndReadBack(quads, g.session, ns, g.endReason, g.terminalNodeID, er, en);
    }
    WellOrderedDistinct(g.session.id, ns);
    var qs :| Lists(qs, In(quads, IRI(g.session.id), PSession)) && NodesRead(quads, qs, ld.nodes);
    NodesReadBack(quads, g.session, ns, e, qs, ld.nodes);
  }

  // ----- parents and dependencies -----

  /** No parent of a stored node looks like an edge IRI. */
  ghost predicate PlainTable(nodes: map<ID, Node>) {
    forall id :: id in nodes ==> PlainParents(nodes[id])
  }

  /** Plain parents come back, as a set and once each. */
  lemma ReadParents(n: Node, m: Node)
    requires ReadAs(n, m) && PlainParents(n)
    ensures Distinct(m.Parents()) && forall p :: p in m.Parents() <==> p in n.Parents()
  {
    CutKeepsTargetsIff(n, m.edges, PARENT);
    forall p ensures p in m.Parents() <==> p in n.Parents() {
      ParentIDsMembers(m.edges, p);
      ParentIDsMembers(n.edges, p);
      assert Targets(m.edges, PARENT, p) <==> Targets(n.edges, PARENT, p);
    }
  }

  lemma TableParents(nodes: map<ID, Node>, nodes': map<ID, Node>)
    requires TableReadAs(nodes, nodes') && PlainTable(nodes)
    ensures SameParents(nodes, nodes')
  {
    forall id | id in nodes ensures forall p :: p in nodes[id].Parents() <==> p in nodes'[id].Parents() {
      ReadParents(nodes[id], nodes'[id]);
    }
  }

  /** d is a dependency of n after its targets were cut. */
  ghost predicate CutDependency(n: Node, d: ID) {
    exists e :: e in n.edges && IsDependency(e) && ReadTarget(e.nodeID) == Some(d)
  }

  /** The dependencies that a loaded table has. */
  ghost function CutDeps(nodes: map<ID, Node>): Relation {
    map id | id in nodes :: set d | d in nodes && CutDependency(nodes[id], d)
  }

  lemma ReadDependency(n: Node, m: Node, d: ID)
    requires ReadAs(n, m)
    ensures (exists e :: e in m.edges && IsDependency(e) && e.nodeID == d) <==> CutDependency(n, d)
  {
    hide ReadTarget, PlainTargets, CleanEdges, NormalEdges;
    if e :| e in m.edges && IsDependency(e) && e.nodeID == d {
      assert Targets(m.edges, e.kind, d);
    }
    if e :| e in n.edges && IsDependency(e) && ReadTarget(e.nodeID) == Some(d) {
      assert Targets(m.edges, e.kind, d);
    }
  }

  /** The relation that a load sorts is fixed by the stored table. */
  lemma TableDeps(nodes: map<ID, Node>, nodes': map<ID, Node>)
    requires TableReadAs(nodes, nodes')
    ensures DepMap(nodes') == CutDeps(nodes)
  {
    hide ReadAs, CutDependency;
    forall id | id in nodes ensures DepMap(nodes')[id] == CutDeps(nodes)[id] {
      forall d ensures d in DepMap(nodes')[id] <==> d in CutDeps(nodes)[id] {
        DepMember(nodes', id, d);
        ReadDependency(nodes[id], nodes'[id], d);
      }
    }
  }

  ghost predicate PlainDepTable(nodes: map<ID, Node>) {
    forall id :: id in nodes ==> PlainDeps(nodes[id])
  }

  lemma PlainDepsUncut(nodes: map<ID, Node>)
    requires PlainDepTable(nodes)
    ensures CutDeps(nodes) == DepMap(nodes) && PlainTable(nodes)
  {
    hide DepMap;
    forall id | id in nodes ensures DepMap(nodes)[id] == CutDeps(nodes)[id] {
      forall d ensures d in DepMap(nodes)[id] <==> d in CutDeps(nodes)[id] {
        DepMember(nodes, id, d);
        PlainDependency(nodes[id], d);
      }
    }
  }

  lemma PlainDependency(n: Node, d: ID)
    requires PlainDeps(n)
    ensures CutDependency(n, d) <==> exists e :: e in n.edges && IsDependency(e) && e.nodeID == d
  {
    hide SplitN;
    if e :| e in n.edges && IsDependency(e) && e.nodeID == d { assert ReadTarget(e.nodeID) == Some(d); }
  }

  // ----- the whole graph -----

  /** What LoadGraph returns for the reads ld and the sort `sorted`. */
  function LoadedGraph(ld: Loaded, sorted: seq<Node>): State {
    FromSorted(ld.session, NodeMap(ld.nodes), sorted, ld.headID, ld.status, ld.reason, ld.terminal)
  }

  /**
   Write-through: loading a mirrored session reads the graph's session, head and ending, and each node back; it
   succeeds exactly when the dependencies, cut as they are read, have no cycle, and so whenever none of them
   looks like an edge IRI.
   */
  lemma LoadKeepsGraph(quads: set<Quad>, g: State, ld: Loaded)
    requires Reachable(g) && g.started && Mirrors(quads, g) && LoadRead(quads, g.session.id, ld)
    ensures ld.session == g.session && ld.headID == g.headID && (ld.status == StatusClosed <==> g.closed)
    ensures ld.reason == g.endReason && ld.terminal == g.terminalNodeID
    ensures TableReadAs(g.nodes, NodeMap(ld.nodes))
    ensures Acyclic(DepMap(NodeMap(ld.nodes))) <==> Acyclic(CutDeps(g.nodes))
    ensures PlainDepTable(g.nodes) ==> Acyclic(DepMap(NodeMap(ld.nodes)))
  {
    hide TableReadAs, Acyclic, DepMap, CutDeps;
    ReachableInv(g);
    var ns := AppendOrder(g.events);
    var ended :| Agrees(g, ns, ended);
    LoadReadsGraph(quads, g, ns, ended, ld);
    ReachableAcyclic(g);
    TableDeps(g.nodes, NodeMap(ld.nodes));
    if PlainDepTable(g.nodes) { PlainDepsUncut(g.nodes); }
  }

  lemma LoadedInverse(nodes: map<ID, Node>, nodes': map<ID, Node>, sorted: seq<Node>)
    requires TableReadAs(nodes, nodes') && PlainTable(nodes) && SortedNodes(nodes', sorted)
    ensures NodeMap(sorted) == nodes' && InverseOfParents(nodes', ChildIndex(sorted))
  {
    SortedNodeMap(nodes', sorted);
    SortedDistinct(nodes', sorted);
    forall n | n in sorted ensures Distinct(n.Parents()) {
      ReadParents(nodes[n.id], nodes'[n.id]);
    }
    ViewsInverse(sorted);
  }

  /** The loaded graph waits for inference and walks forward exactly as the live one. */
  lemma LoadKeepsBehaviour(quads: set<Quad>, g: State, ld: Loaded, sorted: seq<Node>, id: ID)
    requires Reachable(g) && g.started && Mirrors(quads, g) && PlainTable(g.nodes) && LoadRead(quads, g.session.id, ld)
    requires SortedNodes(NodeMap(ld.nodes), sorted)
    ensures Pending(LoadedGraph(ld, sorted), id) <==> Pending(g, id)
    ensures forall to, n: nat :: AdvancesTo(LoadedGraph(ld, sorted).children, id, to, n) <==>
      AdvancesTo(g.children, id, to, n)
  {
    var g' := LoadedGraph(ld, sorted);
    LoadKeepsGraph(quads, g, ld);
    ReachableChildren(g);
    TableParents(g.nodes, g'.nodes);
    LoadedInverse(g.nodes, g'.nodes, sorted);
    if id in g.nodes { ReadBasics(g.nodes[id], g'.nodes[id]); }
    SamePending(g, g', id);
    forall to, n: nat ensures AdvancesTo(g'.children, id, to, n) <==> AdvancesTo(g.children, id, to, n) {
      SameAdvance(g.nodes, g.children, g'.nodes, g'.children, id, to, n);
    }
  }

  // ----- lineage in the store -----

  lemma MirroredNode(quads: set<Quad>, g: State, id: ID, m: Node)
    requires Reachable(g) && Mirrors(quads, g) && id in g.nodes && NodeRead(quads, id, m)
    ensures ReadAs(g.nodes[id], m)
  {
    ReachableInv(g);
    var ns := AppendOrder(g.events);
    var ended :| Agrees(g, ns, ended);
    AgreesOrder(g, ns, ended, id);
    SessionIsNoNode(quads, g.session, ns, EndingOf(g), Position(ns, id));
    NodeCodec.NodeRoundTrip(quads, g.nodes[id], m);
  }

  lemma MirroredStored(quads: set<Quad>, g: State, id: ID)
    requires Reachable(g) && Mirrors(quads, g) && id in g.nodes
    ensures Out(quads, id, PSession) != {}
  {
    ReachableInv(g);
    var ns := AppendOrder(g.events);
    var ended :| Agrees(g, ns, ended);
    AgreesOrder(g, ns, ended, id);
    SessionIsNoNode(quads, g.session, ns, EndingOf(g), Position(ns, id));
    FirstQuad(g.nodes[id]);
    assert Quad(id, PSession, IRI(g.nodes[id].sessionID), g.nodes[id].sessionID) in Out(quads, id, PSession);
  }

  /** Every parent a read can put first is in S, and older. */
  ghost predicate ReadsRanked(read: (ID, Node) -> bool, S: set<ID>, rank: ID -> nat) {
    forall id, n :: id in S && read(id, n) && n.Parents() != [] ==>
      n.Parents()[0] in S && rank(n.Parents()[0]) < rank(id)
  }

  lemma {:induction false} RankedClimbsEnd(read: (ID, Node) -> bool, S: set<ID>, rank: ID -> nat, id: ID, n: nat)
    requires ReadsRanked(read, S, rank) && id in S && rank(id) <= n
    ensures ClimbsEnd(read, id, n)
    decreases n
  {
    forall m | read(id, m) && m.Parents() != [] ensures n > 0 && ClimbsEnd(read, m.Parents()[0], n - 1) {
      RankedClimbsEnd(read, S, rank, m.Parents()[0], n - 1);
    }
  }

  lemma {:induction false} ClimbsStay(read: (ID, Node) -> bool, S: set<ID>, rank: ID -> nat, from: ID, to: ID, n: nat)
    requires ReadsRanked(read, S, rank) && from in S && Climbs(read, from, to, n)
    ensures to in S
    decreases n
  {
    if n > 0 {
      var m :| read(from, m) && m.Parents() != [] && Climbs(read, m.Parents()[0], to, n - 1);
      ClimbsStay(read, S, rank, m.Parents()[0], to, n - 1);
    }
  }

  /**
   On a mirrored session every climb stays in the graph and goes back in time, whichever parent the store lists
   first.
   */
  lemma MirroredRanked(quads: set<Quad>, g: State)
    requires Reachable(g) && Mirrors(quads, g) && PlainTable(g.nodes)
    ensures ReadsRanked(Reader(quads), g.nodes.Keys, Rank(AppendOrder(g.events)))
    ensures forall id :: id in g.nodes ==> ClimbsEnd(Reader(quads), id, Position(AppendOrder(g.events), id))
    ensures forall id, to, n: nat :: id in g.nodes && Climbs(Reader(quads), id, to, n) ==> to in g.nodes
  {
    hide ClimbsEnd, Climbs;
    MirroredReads(quads, g);
    var read, S, rank := Reader(quads), g.nodes.Keys, Rank(AppendOrder(g.events));
    forall id | id in g.nodes ensures ClimbsEnd(read, id, Position(AppendOrder(g.events), id)) {
      RankedClimbsEnd(read, S, rank, id, rank(id));
    }
    forall id, to, n: nat | id in g.nodes && Climbs(read, id, to, n) ensures to in g.nodes {
      ClimbsStay(read, S, rank, id, to, n);
    }
  }

  lemma MirroredReads(quads: set<Quad>, g: State)
    requires Reachable(g) && Mirrors(quads, g) && PlainTable(g.nodes)
    ensures ReadsRanked(Reader(quads), g.nodes.Keys, Rank(AppendOrder(g.events)))
  {
    forall id, m | id in g.nodes.Keys && NodeRead(quads, id, m) && m.Parents() != []
      ensures m.Parents()[0] in g.nodes.Keys
      ensures Position(AppendOrder(g.events), m.Parents()[0]) < Position(AppendOrder(g.events), id)
    {
      MirroredNode(quads, g, id, m);
      ReadParents(g.nodes[id], m);
      assert m.Parents()[0] in m.Parents();
      ReachableParents(g, id);
    }
  }

  lemma MirroredSingleParent(quads: set<Quad>, g: State, id: ID, m: Node)
    requires Reachable(g) && Mirrors(quads, g) && PlainTable(g.nodes) && id in g.nodes && NodeRead(quads, id, m)
    requires |g.nodes[id].Parents()| <= 1
    ensures ReadAs(g.nodes[id], m) && m.Parents() == g.nodes[id].Parents()
  {
    MirroredNode(quads, g, id, m);
    ReadParents(g.nodes[id], m);
    SingleMember(g.nodes[id].Parents(), m.Parents());
  }

  /** Every read of a node of the table is related to it, and keeps a single parent. */
  ghost predicate ReadsBack(read: (ID, Node) -> bool, nodes: map<ID, Node>, same: (Node, Node) -> bool) {
    forall id, m {:trigger read(id, m)} :: id in nodes && read(id, m) ==>
      same(nodes[id], m) && (|nodes[id].Parents()| <= 1 ==> m.Parents() == nodes[id].Parents())
  }

  ghost function ReadRelation(): (Node, Node) -> bool {
    (n, m) => ReadAs(n, m)
  }

  lemma MirroredReadsBack(quads: set<Quad>, g: State)
    requires Reachable(g) && Mirrors(quads, g) && PlainTable(g.nodes)
    ensures ReadsBack(Reader(quads), g.nodes, ReadRelation())
  {
    forall id, m | id in g.nodes && NodeRead(quads, id, m)
      ensures ReadAs(g.nodes[id], m) && (|g.nodes[id].Parents()| <= 1 ==> m.Parents() == g.nodes[id].Parents())
    {
      MirroredNode(quads, g, id, m);
      if |g.nodes[id].Parents()| <= 1 { MirroredSingleParent(quads, g, id, m); }
    }
  }

  lemma {:induction false} SameLineage(read: (ID, Node) -> bool, nodes: map<ID, Node>, same: (Node, Node) -> bool,
                                       id: ID, l: seq<Node>, l': seq<Node>, i: nat)
    requires ReadsBack(read, nodes, same) && IsLineage(nodes, id, l) && PathUp(read, id, l')
    requires forall j :: 0 <= j < |l| ==> |l[j].Parents()| <= 1
    requires i < |l|
    ensures |l'| == |l| && same(l[i], l'[i])
    decreases |l|
  {
    var k, k' := |l| - 1, |l'| - 1;
    var n, m := l[k], l'[k'];
    assert |n.Parents()| <= 1;
    assert same(n, m) && m.Parents() == n.Parents();
    if n.Parents() != [] {
      SameLineage(read, nodes, same, n.Parents()[0], l[..k], l'[..k'], if i < k then i else 0);
    }
  }

  /** With at most one parent per node, the stored lineage is the canonical one. */
  lemma StoreLineageIsCanonical(quads: set<Quad>, g: State, id: ID, l: seq<Node>, l': seq<Node>)
    requires Reachable(g) && Mirrors(quads, g) && PlainTable(g.nodes)
    requires IsLineage(g.nodes, id, l) && StoreLineage(quads, id, l')
    requires forall i :: 0 <= i < |l| ==> |l[i].Parents()| <= 1
    ensures |l'| == |l| && forall i :: 0 <= i < |l| ==> ReadAs(l[i], l'[i])
  {
    MirroredReadsBack(quads, g);
    SameLineage(Reader(quads), g.nodes, ReadRelation(), id, l, l', 0);
    forall i | 0 <= i < |l| ensures ReadAs(l[i], l'[i]) {
      SameLineage(Reader(quads), g.nodes, ReadRelation(), id, l, l', i);
    }
  }

  lemma SingleMember<T>(s: seq<T>, t: seq<T>)
    requires |s| <= 1 && Distinct(t) && forall p :: p in t <==> p in s
    ensures s == t
  {
    SameMembersSameLength(s, t);
    if |s| == 1 {
      assert s[0] in s && t[0] in t;
    }
  }

  /** GetLineage on a mirrored session: it ends, succeeds, and returns the canonical lineage as stored. */
  method LineageOf(store: Store, ghost g: State, id: ID) returns (l: seq<Node>)
    requires Reachable(g) && Mirrors(store.quads, g) && PlainTable(g.nodes) && id in g.nodes
    ensures StoreLineage(store.quads, id, l)
    ensures forall c: seq<Node> :: IsLineage(g.nodes, id, c) && (forall i :: 0 <= i < |c| ==> |c[i].Parents()| <= 1) ==>
      |l| == |c| && forall i :: 0 <= i < |c| ==> ReadAs(c[i], l[i])
  {
    MirroredRanked(store.quads, g);
    var r := GetLineage(store, id, Position(AppendOrder(g.events), id));
    if r.Err? { MirroredStored(store.quads, g, r.error.id); }
    l := r.value;
    forall c: seq<Node> | IsLineage(g.nodes, id, c) && forall i :: 0 <= i < |c| ==> |c[i].Parents()| <= 1
      ensures |l| == |c| && forall i :: 0 <= i < |c| ==> ReadAs(c[i], l[i])
    {
      StoreLineageIsCanonical(store.quads, g, id, c, l);
    }
  }
}
