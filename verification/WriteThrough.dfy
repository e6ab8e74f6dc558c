/** Writing a graph through to the store, call by call, keeps the store a faithful copy of the graph. */
module WriteThrough {
  import opened Types
  import opened GraphState
  import opened GraphInvariant
  import opened Quads
  import opened CayleyStore
  import opened NodeCodec

  // ----- what the store holds of one session -----

  datatype Ending = StillOpen | EndedWith(reason: string, terminal: ID)

  ghost function StatusOf(e: Ending): string {
    if e.StillOpen? then "open" else "closed"
  }

  /** Everything stored under the session's own subject. */
  ghost predicate SessionFact(sess: Session, head: ID, e: Ending, q: Quad) {
    || q == Quad(sess.id, PTimestamp, TimeText(sess.timestamp), sess.id)
    || q == Quad(sess.id, PStatus, Text(StatusOf(e)), sess.id)
    || (sess.spawnedFrom.Some?
      && q == Quad(sess.id, PSpawnedFromSession, IRI(sess.spawnedFrom.value.sessionID), sess.id))
    || (sess.spawnedFrom.Some? && q == Quad(sess.id, PSpawnedFromNode, IRI(sess.spawnedFrom.value.nodeID), sess.id))
    || (head != NO_ID && q == Quad(sess.id, PHead, IRI(head), sess.id))
    || (e.EndedWith? && q == Quad(sess.id, PEndReason, Text(e.reason), sess.id))
    || (e.EndedWith? && q == Quad(sess.id, PEndNode, IRI(e.terminal), sess.id))
  }

  ghost predicate MemberOf(sid: ID, ns: seq<Node>, q: Quad) {
    exists i :: 0 <= i < |ns| && q == Quad(ns[i].id, PSession, IRI(sid), sid)
  }

  ghost predicate FactAt(quads: set<Quad>, sess: Session, head: ID, e: Ending, q: Quad) {
    q.subj == sess.id ==> (q in quads <==> SessionFact(sess, head, e, q))
  }

  ghost predicate MemberAt(quads: set<Quad>, sid: ID, ns: seq<Node>, q: Quad) {
    q.pred == PSession && q.obj == IRI(sid) ==> (q in quads <==> MemberOf(sid, ns, q))
  }

  ghost predicate NodeAt(quads: set<Quad>, sid: ID, ns: seq<Node>, i: nat)
    requires i < |ns|
  {
    ns[i].id != NO_ID && ns[i].sessionID == sid && Owns(quads, ns[i])
  }

  /** The store holds exactly this session with these nodes, besides whatever else it holds. */
  ghost predicate Holds(quads: set<Quad>, sess: Session, ns: seq<Node>, e: Ending) {
    && (forall q {:trigger FactAt(quads, sess, LastID(ns), e, q)} :: FactAt(quads, sess, LastID(ns), e, q))
    && (forall i {:trigger NodeAt(quads, sess.id, ns, i)} :: 0 <= i < |ns| ==> NodeAt(quads, sess.id, ns, i))
    && forall q {:trigger MemberAt(quads, sess.id, ns, q)} :: MemberAt(quads, sess.id, ns, q)
  }

  /** Nothing is stored under this session ID yet. */
  ghost predicate UnusedSession(quads: set<Quad>, sid: ID) {
    sid != GLOBAL_SESSIONS && forall q :: q in quads ==> q.subj != sid && !(q.pred == PSession && q.obj == IRI(sid))
  }

  /** Nothing is stored under this node ID, or under an edge IRI made from it. */
  ghost predicate UnusedNode(quads: set<Quad>, id: ID) {
    id != NO_ID && forall q :: q in quads ==> q.subj != id && forall k, t :: q.subj != EdgeIRI(id, k, t)
  }

  // ----- frames -----

  lemma NodeQuadShape(n: Node, q: Quad)
    requires q in NodeQuads(n)
    ensures q.pred !in {PHead, PStatus, PEndReason, PEndNode, PMember, PSpawnedFromSession, PSpawnedFromNode}
    ensures q.subj == n.id || (q.pred == PWeight && exists k, t :: q.subj == EdgeIRI(n.id, k, t))
    ensures q.pred == PSession ==> q == Quad(n.id, PSession, IRI(n.sessionID), n.sessionID)
  {
    NodeQuadsAre(n, q);
    if q !in BaseQuads(n) {
      var e :| e in n.edges && q in EdgeQuads(n, e);
      EdgeQuadsAre(n, e, q);
      EdgePredKnown(e.kind);
      EdgePredIs(e.kind);
    }
  }

  lemma EdgePredIs(k: EdgeKind)
    requires EdgeKindToPred(k).Some?
    ensures EdgeKindToPred(k).value !in {PHead, PStatus, PEndReason, PEndNode, PMember, PSpawnedFromSession,
      PSpawnedFromNode, PSession}
  {
  }

  lemma FirstQuad(n: Node)
    ensures Quad(n.id, PSession, IRI(n.sessionID), n.sessionID) in NodeQuads(n)
    ensures Quad(n.id, PTimestamp, TimeText(n.timestamp), n.sessionID) in NodeQuads(n)
  {
    assert NodeQuads(n)[0] == BaseQuads(n)[0] && NodeQuads(n)[1] == BaseQuads(n)[1];
  }

  lemma IRIHasWeight(n: Node, x: ID)
    requires IsEdgeIRIOf(n, x)
    ensures exists q :: q in NodeQuads(n) && q.subj == x && q.pred == PWeight
  {
    var e :| e in n.edges && IsReified(e) && EdgeKindToPred(e.kind).Some? && x == EdgeIRI(n.id, e.kind, e.nodeID);
    EdgeQuadIn(n, e);
    assert WeightQuad(n, e).subj == x;
  }

  /** A node keeps its quads when only quads under one foreign subject go and nothing new touches it. */
  lemma OwnsKept(quads: set<Quad>, quads': set<Quad>, n: Node, sid: ID)
    requires Owns(quads, n)
    requires forall q :: q in quads && q !in quads' ==> q.subj == sid && q.pred in {PHead, PStatus}
    requires forall q :: q in quads' && q !in quads ==> q.subj != n.id && !(q.pred == PWeight && IsEdgeIRIOf(n, q.subj))
    ensures Owns(quads', n)
  {
    forall q | q in NodeQuads(n) ensures q in quads' {
      NodeQuadShape(n, q);
    }
  }

  /** A session's own subject is never a node's. */
  lemma SessionIsNoNode(quads: set<Quad>, sess: Session, ns: seq<Node>, e: Ending, i: nat)
    requires Holds(quads, sess, ns, e) && i < |ns|
    ensures ns[i].id != sess.id && Owns(quads, ns[i]) && ns[i].id != NO_ID && ns[i].sessionID == sess.id
  {
    assert NodeAt(quads, sess.id, ns, i);
    FirstQuad(ns[i]);
    var q := Quad(ns[i].id, PSession, IRI(ns[i].sessionID), ns[i].sessionID);
    assert q in quads && FactAt(quads, sess, LastID(ns), e, q);
  }

  // ----- the three store calls -----

  lemma CreateHolds(quads: set<Quad>, sess: Session)
    requires UnusedSession(quads, sess.id)
    ensures Holds(AfterCreate(quads, sess), sess, [], StillOpen)
  {
    var after := AfterCreate(quads, sess);
    forall q ensures FactAt(after, sess, NO_ID, StillOpen, q) && MemberAt(after, sess.id, [], q) {
      assert q in QuadSet(SessionQuads(sess)) <==> q in SessionQuads(sess);
      assert q in SessionQuads(sess) ==> q.subj == sess.id && q.pred != PSession;
    }
  }

  lemma ReplacedSingle(quads: set<Quad>, q0: Quad)
    requires q0.lbl == q0.subj
    requires forall q: Quad :: q.subj == q0.subj && q.pred == q0.pred ==> (q in quads <==> q == q0)
    ensures Replaced(quads, q0.subj, q0.pred) == {q0}
  {
    assert Out(quads, q0.subj, q0.pred) == {q0};
    assert q0 in Out(quads, q0.subj, q0.pred);
  }

  lemma ReplacedNone(quads: set<Quad>, sid: ID, pred: Pred)
    requires forall q: Quad :: q.subj == sid && q.pred == pred ==> q !in quads
    ensures Replaced(quads, sid, pred) == {}
  {
    assert Out(quads, sid, pred) == {};
  }

  lemma TimestampHeld(quads: set<Quad>, sess: Session, ns: seq<Node>, e: Ending)
    requires Holds(quads, sess, ns, e)
    ensures Quad(sess.id, PTimestamp, TimeText(sess.timestamp), sess.id) in Out(quads, sess.id, PTimestamp)
  {
    assert FactAt(quads, sess, LastID(ns), e, Quad(sess.id, PTimestamp, TimeText(sess.timestamp), sess.id));
  }

  lemma HeadReplaced(quads: set<Quad>, sess: Session, ns: seq<Node>, e: Ending)
    requires Holds(quads, sess, ns, e)
    ensures Replaced(quads, sess.id, PHead) ==
            if LastID(ns) == NO_ID then {} else {Quad(sess.id, PHead, IRI(LastID(ns)), sess.id)}
  {
    if LastID(ns) == NO_ID {
      forall q: Quad | q.subj == sess.id && q.pred == PHead ensures q !in quads {
        assert FactAt(quads, sess, LastID(ns), e, q);
      }
      ReplacedNone(quads, sess.id, PHead);
    } else {
      var h := Quad(sess.id, PHead, IRI(LastID(ns)), sess.id);
      forall q: Quad | q.subj == sess.id && q.pred == PHead ensures q in quads <==> q == h {
        assert FactAt(quads, sess, LastID(ns), e, q);
      }
      ReplacedSingle(quads, h);
    }
  }

  /** The store accepts writes to a session it holds. */
  lemma WriteAccepted(quads: set<Quad>, sess: Session, ns: seq<Node>, e: Ending)
    requires Holds(quads, sess, ns, e)
    ensures Out(quads, sess.id, PTimestamp) != {}
    ensures Replaced(quads, sess.id, PHead) <= quads
  {
    TimestampHeld(quads, sess, ns, e);
    HeadReplaced(quads, sess, ns, e);
    assert FactAt(quads, sess, LastID(ns), e, Quad(sess.id, PHead, IRI(LastID(ns)), sess.id));
  }

  /** The quads of an unused node touch no node already stored. */
  lemma UnusedTouchesNone(quads: set<Quad>, m: Node, n: Node, q: Quad)
    requires Owns(quads, m) && UnusedNode(quads, n.id) && q in NodeQuads(n)
    ensures q.subj != m.id && !(q.pred == PWeight && IsEdgeIRIOf(m, q.subj))
  {
    NodeQuadShape(n, q);
    FirstQuad(m);
    assert Quad(m.id, PSession, IRI(m.sessionID), m.sessionID) in quads;
    if IsEdgeIRIOf(m, q.subj) {
      IRIHasWeight(m, q.subj);
    }
  }

  lemma ReplacedShape(quads: set<Quad>, sid: ID, pred: Pred, q: Quad)
    requires q in Replaced(quads, sid, pred)
    ensures q.subj == sid && q.pred == pred
  {
  }

  lemma WriteKeepsNode(quads: set<Quad>, m: Node, n: Node)
    requires Owns(quads, m) && m.id != n.sessionID && UnusedNode(quads, n.id)
    ensures Owns(AfterWrite(quads, n), m)
  {
    hide Owns, UnusedNode, IsEdgeIRIOf, NodeQuads, Replaced;
    var after := AfterWrite(quads, n);
    forall q | q in quads && q !in after ensures q.subj == n.sessionID && q.pred in {PHead, PStatus} {
      ReplacedShape(quads, n.sessionID, PHead, q);
    }
    forall q | q in after && q !in quads ensures q.subj != m.id && !(q.pred == PWeight && IsEdgeIRIOf(m, q.subj)) {
      if q in NodeQuads(n) { UnusedTouchesNone(quads, m, n, q); }
    }
    OwnsKept(quads, after, m, n.sessionID);
  }

  lemma WriteOwnsNew(quads: set<Quad>, n: Node)
    requires UnusedNode(quads, n.id) && n.id != n.sessionID
    ensures Owns(AfterWrite(quads, n), n)
  {
    var after := AfterWrite(quads, n);
    forall q | q in NodeQuads(n) ensures q in after {
      NodeQuadShape(n, q);
    }
    forall q | q in after && q.pred == PWeight && IsEdgeIRIOf(n, q.subj) ensures q in NodeQuads(n) {
      var e :| e in n.edges && IsReified(e) && EdgeKindToPred(e.kind).Some?
        && q.subj == EdgeIRI(n.id, e.kind, e.nodeID);
      assert q !in quads;
    }
  }

  /** The session's subject after a write: only the head has moved. */
  lemma WriteFacts(quads: set<Quad>, sess: Session, ns: seq<Node>, e: Ending, n: Node, q: Quad)
    requires Holds(quads, sess, ns, e) && n.sessionID == sess.id && UnusedNode(quads, n.id)
    ensures FactAt(AfterWrite(quads, n), sess, n.id, e, q)
  {
    HeadReplaced(quads, sess, ns, e);
    TimestampHeld(quads, sess, ns, e);
    assert FactAt(quads, sess, LastID(ns), e, q);
    if q in NodeQuads(n) {
      NodeQuadShape(n, q);
    }
  }

  lemma MemberOfLonger(sid: ID, ns: seq<Node>, n: Node, q: Quad)
    ensures MemberOf(sid, ns + [n], q) <==> MemberOf(sid, ns, q) || q == Quad(n.id, PSession, IRI(sid), sid)
  {
    var all := ns + [n];
    assert all[|ns|] == n;
    if MemberOf(sid, ns, q) {
      var i :| 0 <= i < |ns| && q == Quad(ns[i].id, PSession, IRI(sid), sid);
      assert all[i] == ns[i];
    }
  }

  lemma WriteMembers(quads: set<Quad>, sess: Session, ns: seq<Node>, e: Ending, n: Node, q: Quad)
    requires Holds(quads, sess, ns, e) && n.sessionID == sess.id
    ensures MemberAt(AfterWrite(quads, n), sess.id, ns + [n], q)
  {
    MemberOfLonger(sess.id, ns, n, q);
    FirstQuad(n);
    if q in NodeQuads(n) { NodeQuadShape(n, q); }
    assert MemberAt(quads, sess.id, ns, q);
    if q in Replaced(quads, n.sessionID, PHead) { ReplacedShape(quads, n.sessionID, PHead, q); }
  }

  lemma WriteHolds(quads: set<Quad>, sess: Session, ns: seq<Node>, e: Ending, n: Node)
    requires Holds(quads, sess, ns, e) && n.sessionID == sess.id && UnusedNode(quads, n.id)
    ensures Holds(AfterWrite(quads, n), sess, ns + [n], e)
  {
    var all, after := ns + [n], AfterWrite(quads, n);
    TimestampHeld(quads, sess, ns, e);
    forall q ensures FactAt(after, sess, LastID(all), e, q) && MemberAt(after, sess.id, all, q) {
      WriteFacts(quads, sess, ns, e, n, q);
      WriteMembers(quads, sess, ns, e, n, q);
    }
    forall i | 0 <= i < |all| ensures NodeAt(after, sess.id, all, i) {
      if i < |ns| {
        SessionIsNoNode(quads, sess, ns, e, i);
        WriteKeepsNode(quads, ns[i], n);
      } else {
        WriteOwnsNew(quads, n);
      }
    }
  }

  lemma EndFacts(quads: set<Quad>, sess: Session, ns: seq<Node>, reason: string, terminal: ID, q: Quad)
    requires Holds(quads, sess, ns, StillOpen)
    ensures FactAt(AfterEnd(quads, sess.id, reason, terminal), sess, LastID(ns), EndedWith(reason, terminal), q)
    ensures MemberAt(AfterEnd(quads, sess.id, reason, terminal), sess.id, ns, q)
  {
    var st := Quad(sess.id, PStatus, Text(STATUS_OPEN), sess.id);
    forall p: Quad | p.subj == sess.id && p.pred == PStatus ensures p in quads <==> p == st {
      assert FactAt(quads, sess, LastID(ns), StillOpen, p);
    }
    ReplacedSingle(quads, st);
    assert FactAt(quads, sess, LastID(ns), StillOpen, q) && MemberAt(quads, sess.id, ns, q);
  }

  lemma EndDifference(quads: set<Quad>, sid: ID, reason: string, terminal: ID, q: Quad)
    requires (q in quads) != (q in AfterEnd(quads, sid, reason, terminal))
    ensures q.subj == sid && q.pred != PWeight && (q in quads ==> q.pred == PStatus)
  {
    if q in Replaced(quads, sid, PStatus) { ReplacedShape(quads, sid, PStatus, q); }
  }

  lemma EndKeepsNode(quads: set<Quad>, sid: ID, m: Node, reason: string, terminal: ID)
    requires Owns(quads, m) && m.id != sid
    ensures Owns(AfterEnd(quads, sid, reason, terminal), m)
  {
    var after := AfterEnd(quads, sid, reason, terminal);
    forall q | q in quads && q !in after ensures q.subj == sid && q.pred in {PHead, PStatus} {
      EndDifference(quads, sid, reason, terminal, q);
    }
    forall q | q in after && q !in quads ensures q.subj != m.id && !(q.pred == PWeight && IsEdgeIRIOf(m, q.subj)) {
      EndDifference(quads, sid, reason, terminal, q);
    }
    OwnsKept(quads, after, m, sid);
  }

  lemma EndHolds(quads: set<Quad>, sess: Session, ns: seq<Node>, reason: string, terminal: ID)
    requires Holds(quads, sess, ns, StillOpen)
    ensures Holds(AfterEnd(quads, sess.id, reason, terminal), sess, ns, EndedWith(reason, terminal))
  {
    var after, ended := AfterEnd(quads, sess.id, reason, terminal), EndedWith(reason, terminal);
    forall q ensures FactAt(after, sess, LastID(ns), ended, q) && MemberAt(after, sess.id, ns, q) {
      EndFacts(quads, sess, ns, reason, terminal, q);
    }
    forall i | 0 <= i < |ns| ensures NodeAt(after, sess.id, ns, i) {
      SessionIsNoNode(quads, sess, ns, StillOpen, i);
      EndKeepsNode(quads, sess.id, ns[i], reason, terminal);
    }
  }

  // ----- write-through -----

  ghost function EndingOf(g: State): Ending {
    if g.closed then EndedWith(g.endReason, g.terminalNodeID) else StillOpen
  }

  /** The store is a copy of the graph. */
  ghost predicate Mirrors(quads: set<Quad>, g: State) {
    Holds(quads, g.session, AppendOrder(g.events), EndingOf(g))
  }

  /** The store call a caller makes after a successful graph call. */
  ghost function Through(quads: set<Quad>, g: State, op: Op): set<Quad> {
    var (g', out) := Step(g, op);
    if out.Failed? then quads
    else
      match op
      case StartOp(_) => AfterCreate(quads, g'.session)
      case AppendOp(_, _, _, _) => if out.Appended? then AfterWrite(quads, out.node) else quads
      case TypedOp(_, _, _, _, _, _, _) => if out.Appended? then AfterWrite(quads, out.node) else quads
      case EndOp(_, _) => AfterEnd(quads, g.session.id, g'.endReason, g'.terminalNodeID)
  }

  /** IDs new to the graph are new to the store; a refused start does not reach the store. */
  ghost predicate NewToStore(quads: set<Quad>, g: State, op: Op) {
    match op
    case StartOp(_) => !g.started && !g.closed ==> UnusedSession(quads, g.session.id)
    case AppendOp(_, _, id, _) => UnusedNode(quads, id)
    case TypedOp(_, _, _, _, _, id, _) => UnusedNode(quads, id)
    case EndOp(_, _) => true
  }

  /** Write-through: a graph call followed by its store call keeps the store a copy, and the call is accepted. */
  lemma WriteThroughStep(quads: set<Quad>, g: State, op: Op)
    requires Reachable(g) && Admissible(g, op) && NewToStore(quads, g, op)
    requires g.started ==> Mirrors(quads, g)
    ensures var g' := Step(g, op).0; g'.started ==> Mirrors(Through(quads, g, op), g')
    ensures (op.AppendOp? || op.TypedOp?) && !Step(g, op).1.Failed? ==>
      Out(quads, g.session.id, PTimestamp) != {} && Replaced(quads, g.session.id, PHead) <= quads
  {
    ReachableInv(g);
    var ns := AppendOrder(g.events);
    var (g', out) := Step(g, op);
    if !out.Failed? {
      if op.AppendOp? || op.TypedOp? {
        MirrorAppend(quads, g, op);
      } else if op.StartOp? {
        CreateHolds(quads, g'.session);
        AppendOrderConcat(g.events, [out.event]);
        assert [out.event][..0] == [];
        assert AppendOrder(g'.events) == [];
      } else {
        EndHolds(quads, g.session, ns, g'.endReason, g'.terminalNodeID);
        AppendOrderConcat(g.events, [out.event]);
        assert [out.event][..0] == [];
        assert AppendOrder(g'.events) == ns;
      }
    }
  }

  lemma MirrorAppend(quads: set<Quad>, g: State, op: Op)
    requires Inv(g) && Admissible(g, op) && NewToStore(quads, g, op) && (op.AppendOp? || op.TypedOp?)
    requires g.started ==> Mirrors(quads, g)
    requires !Step(g, op).1.Failed?
    ensures Mirrors(Through(quads, g, op), Step(g, op).0)
    ensures Out(quads, g.session.id, PTimestamp) != {} && Replaced(quads, g.session.id, PHead) <= quads
  {
    var ns := AppendOrder(g.events);
    var (g', out) := Step(g, op);
    AppendShape(g, op);
    WriteAccepted(quads, g.session, ns, StillOpen);
    WriteHolds(quads, g.session, ns, StillOpen, out.node);
    var e := NodeEvent(g.session.id, g.eventNames, out.node);
    AppendOrderConcat(g.events, [e]);
    assert [e][..0] == [];
    assert AppendOrder(g'.events) == ns + [out.node];
  }

  /** The store after a run of graph calls, each written through. */
  ghost function ThroughRun(quads: set<Quad>, g: State, ops: seq<Op>): set<Quad> {
    if ops == [] then quads
    else
      var before := ops[..|ops| - 1];
      Through(ThroughRun(quads, g, before), Run(g, before), ops[|ops| - 1])
  }

  /** Each generated ID is new to the store when it is used. */
  ghost predicate NewAlong(quads: set<Quad>, g: State, ops: seq<Op>) {
    forall i :: 0 <= i < |ops| ==> NewToStore(ThroughRun(quads, g, ops[..i]), Run(g, ops[..i]), ops[i])
  }

  /** Whatever else the store holds, after any run of a new graph it holds a faithful copy of it. */
  lemma {:induction false} WriteThroughRun(quads: set<Quad>, id: ID, spawned: Option<SpawnReference>, names: EventNames,
                                           ops: seq<Op>)
    requires id != NO_ID && AdmissibleRun(NewGraph(id, spawned, names), ops)
    requires NewAlong(quads, NewGraph(id, spawned, names), ops)
    ensures var g := Run(NewGraph(id, spawned, names), ops);
      Reachable(g) && (g.started ==> Mirrors(ThroughRun(quads, NewGraph(id, spawned, names), ops), g))
  {
    var g0 := NewGraph(id, spawned, names);
    if ops != [] {
      var m := |ops| - 1;
      var before := ops[..m];
      forall i | 0 <= i < m
        ensures Admissible(Run(g0, before[..i]), before[i])
        ensures NewToStore(ThroughRun(quads, g0, before[..i]), Run(g0, before[..i]), before[i])
      {
        assert before[..i] == ops[..i];
        assert Admissible(Run(g0, ops[..i]), ops[i]);
      }
      WriteThroughRun(quads, id, spawned, names, before);
      assert Admissible(Run(g0, ops[..m]), ops[m])
        && NewToStore(ThroughRun(quads, g0, ops[..m]), Run(g0, ops[..m]), ops[m]);
      WriteThroughStep(ThroughRun(quads, g0, before), Run(g0, before), ops[m]);
    }
    assert Reachable(Run(g0, ops));
  }
}
