/** Any run of store calls on any number of sessions leaves each session as its own calls made it. */
module StoreRuns {
  import opened Types
  import opened GraphInvariant
  import opened Quads
  import opened CayleyStore
  import opened NodeCodec
  import opened WriteThrough

  /** What was stored for one session: its nodes in the order of their writes, and how it ended. */
  datatype Entry = Entry(session: Session, nodes: seq<Node>, ending: Ending)

  /** The quads, and what they stand for. */
  datatype Kept = Kept(quads: set<Quad>, table: map<ID, Entry>)

  const EMPTY_STORE := Kept({}, map[])

  datatype Call =
    | Create(session: Session)
    | Write(node: Node)
    | Finish(sid: ID, reason: string, terminal: ID)

  /** IDs are new when first used, and a session is ended at most once. */
  ghost predicate Allowed(k: Kept, call: Call) {
    match call
    case Create(sess) => sess.id != NO_ID && UnusedSession(k.quads, sess.id)
    case Write(n) => n.sessionID in k.table && UnusedNode(k.quads, n.id)
    case Finish(sid, _, _) => sid in k.table && k.table[sid].ending.StillOpen?
  }

  ghost function Perform(k: Kept, call: Call): Kept
    requires Allowed(k, call)
  {
    match call
    case Create(sess) => Kept(AfterCreate(k.quads, sess), k.table[sess.id := Entry(sess, [], StillOpen)])
    case Write(n) =>
      var e := k.table[n.sessionID];
      Kept(AfterWrite(k.quads, n), k.table[n.sessionID := e.(nodes := e.nodes + [n])])
    case Finish(sid, reason, terminal) =>
      Kept(AfterEnd(k.quads, sid, reason, terminal),
        k.table[sid := k.table[sid].(ending := EndedWith(reason, terminal))])
  }

  ghost predicate EntryHeld(quads: set<Quad>, sid: ID, e: Entry) {
    sid != NO_ID && sid != GLOBAL_SESSIONS && e.session.id == sid && Holds(quads, e.session, e.nodes, e.ending)
  }

  ghost predicate EntryAt(k: Kept, sid: ID) {
    sid in k.table ==> EntryHeld(k.quads, sid, k.table[sid])
  }

  /** The registry lists just the sessions of the table. */
  ghost predicate RegistryAt(k: Kept, q: Quad) {
    q.subj == ID("sgp:sessions") ==>
      (q in k.quads <==> q.obj.IRI? && q.obj.id in k.table && q.pred == PMember && q.lbl == ID("sgp:global"))
  }

  /** The quads hold exactly the table. */
  ghost predicate Faithful(k: Kept) {
    && (forall sid {:trigger EntryAt(k, sid)} :: EntryAt(k, sid))
    && forall q {:trigger RegistryAt(k, q)} :: RegistryAt(k, q)
  }

  // ----- what a call leaves alone -----

  /** A session keeps all it has when nothing changes under its own subject, in its membership or under its nodes. */
  lemma EntryFrame(quads: set<Quad>, quads': set<Quad>, sid: ID, e: Entry)
    requires EntryHeld(quads, sid, e)
    requires forall q :: (q in quads) != (q in quads') ==> q.subj != sid && !(q.pred == PSession && q.obj == IRI(sid))
    requires forall i :: 0 <= i < |e.nodes| ==> Owns(quads', e.nodes[i])
    ensures EntryHeld(quads', sid, e)
  {
    hide Owns, SessionFact, MemberOf;
    var ns := e.nodes;
    forall q ensures FactAt(quads', e.session, LastID(ns), e.ending, q) && MemberAt(quads', sid, ns, q) {
      assert FactAt(quads, e.session, LastID(ns), e.ending, q) && MemberAt(quads, sid, ns, q);
    }
    forall i | 0 <= i < |ns| ensures NodeAt(quads', sid, ns, i) {
      assert NodeAt(quads, sid, ns, i);
    }
  }

  lemma StampKept(quads: set<Quad>, sid: ID, e: Entry)
    requires EntryHeld(quads, sid, e)
    ensures Quad(sid, PTimestamp, TimeText(e.session.timestamp), sid) in quads
  {
    TimestampHeld(quads, e.session, e.nodes, e.ending);
  }

  lemma CreateDifference(quads: set<Quad>, sess: Session, q: Quad)
    requires (q in quads) != (q in AfterCreate(quads, sess))
    ensures q !in quads && q.pred != PSession && q.pred != PWeight && (q.subj == sess.id || q == MemberQuad(sess.id))
  {
  }

  lemma WriteDifference(quads: set<Quad>, n: Node, q: Quad)
    requires (q in quads) != (q in AfterWrite(quads, n))
    ensures (q.subj == n.sessionID && q.pred == PHead) || q in NodeQuads(n)
  {
    if q in Replaced(quads, n.sessionID, PHead) { ReplacedShape(quads, n.sessionID, PHead, q); }
  }

  /** A node is not stored under the registry or under a session. */
  lemma NodeNotSession(quads: set<Quad>, sid: ID, e: Entry, i: nat, other: ID, o: Entry)
    requires EntryHeld(quads, sid, e) && i < |e.nodes| && EntryHeld(quads, other, o)
    ensures Owns(quads, e.nodes[i]) && e.nodes[i].id != other
  {
    SessionIsNoNode(quads, e.session, e.nodes, e.ending, i);
    FirstQuad(e.nodes[i]);
    assert FactAt(quads, o.session, LastID(o.nodes), o.ending, Quad(e.nodes[i].id, PSession, IRI(sid), sid));
  }

  lemma CreateKeepsEntry(k: Kept, sess: Session, sid: ID)
    requires Faithful(k) && Allowed(k, Create(sess)) && sid in k.table
    ensures sid != sess.id && EntryHeld(AfterCreate(k.quads, sess), sid, k.table[sid])
  {
    var e, after := k.table[sid], AfterCreate(k.quads, sess);
    assert EntryAt(k, sid);
    StampKept(k.quads, sid, e);
    forall i | 0 <= i < |e.nodes| ensures Owns(after, e.nodes[i]) {
      CreateKeepsNode(k, sess, sid, i);
    }
    CreateChanges(k.quads, sess, sid);
    EntryFrame(k.quads, after, sid, e);
  }

  lemma CreateChanges(quads: set<Quad>, sess: Session, sid: ID)
    requires sid != sess.id && sid != GLOBAL_SESSIONS
    ensures forall q :: (q in quads) != (q in AfterCreate(quads, sess)) ==>
      q.subj != sid && !(q.pred == PSession && q.obj == IRI(sid))
  {
    forall q | (q in quads) != (q in AfterCreate(quads, sess)) ensures q.subj != sid && q.pred != PSession {
      CreateDifference(quads, sess, q);
    }
  }

  lemma CreateKeepsNode(k: Kept, sess: Session, sid: ID, i: nat)
    requires Faithful(k) && Allowed(k, Create(sess)) && sid in k.table && i < |k.table[sid].nodes|
    ensures Owns(AfterCreate(k.quads, sess), k.table[sid].nodes[i])
  {
    var e, after := k.table[sid], AfterCreate(k.quads, sess);
    var m := e.nodes[i];
    assert EntryAt(k, sid);
    SessionIsNoNode(k.quads, e.session, e.nodes, e.ending, i);
    FirstQuad(m);
    var own := Quad(m.id, PSession, IRI(m.sessionID), m.sessionID);
    assert own in k.quads && RegistryAt(k, own);
    forall q | (q in k.quads) != (q in after) ensures q !in k.quads && q.subj != m.id && q.pred != PWeight {
      CreateDifference(k.quads, sess, q);
    }
    OwnsKept(k.quads, after, m, sess.id);
  }

  lemma CreateKeepsRegistry(k: Kept, sess: Session, q: Quad)
    requires Faithful(k) && Allowed(k, Create(sess))
    ensures RegistryAt(Perform(k, Create(sess)), q)
  {
    assert RegistryAt(k, q);
    if (q in k.quads) != (q in AfterCreate(k.quads, sess)) { CreateDifference(k.quads, sess, q); }
  }

  lemma WriteKeepsEntry(k: Kept, n: Node, sid: ID)
    requires Faithful(k) && Allowed(k, Write(n)) && sid in k.table && sid != n.sessionID
    ensures EntryHeld(AfterWrite(k.quads, n), sid, k.table[sid])
  {
    var e, after := k.table[sid], AfterWrite(k.quads, n);
    assert EntryAt(k, sid) && EntryAt(k, n.sessionID);
    StampKept(k.quads, sid, e);
    forall q | (q in k.quads) != (q in after) ensures q.subj != sid && !(q.pred == PSession && q.obj == IRI(sid)) {
      WriteDifference(k.quads, n, q);
      if q in NodeQuads(n) { NodeQuadShape(n, q); }
    }
    forall i | 0 <= i < |e.nodes| ensures Owns(after, e.nodes[i]) {
      NodeNotSession(k.quads, sid, e, i, n.sessionID, k.table[n.sessionID]);
      WriteKeepsNode(k.quads, e.nodes[i], n);
    }
    EntryFrame(k.quads, after, sid, e);
  }

  lemma WriteKeepsRegistry(k: Kept, n: Node, q: Quad)
    requires Faithful(k) && Allowed(k, Write(n))
    ensures RegistryAt(Perform(k, Write(n)), q)
  {
    var sid := n.sessionID;
    assert RegistryAt(k, q) && RegistryAt(k, MemberQuad(sid)) && EntryAt(k, sid);
    if (q in k.quads) != (q in AfterWrite(k.quads, n)) {
      WriteDifference(k.quads, n, q);
      if q in NodeQuads(n) { NodeQuadShape(n, q); }
    }
  }

  lemma FinishKeepsEntry(k: Kept, sid: ID, reason: string, terminal: ID, other: ID)
    requires Faithful(k) && Allowed(k, Finish(sid, reason, terminal)) && other in k.table && other != sid
    ensures EntryHeld(AfterEnd(k.quads, sid, reason, terminal), other, k.table[other])
  {
    var e, after := k.table[other], AfterEnd(k.quads, sid, reason, terminal);
    assert EntryAt(k, other) && EntryAt(k, sid);
    forall q | (q in k.quads) != (q in after) ensures q.subj != other && q.pred != PSession {
      EndDifference(k.quads, sid, reason, terminal, q);
    }
    forall i | 0 <= i < |e.nodes| ensures Owns(after, e.nodes[i]) {
      NodeNotSession(k.quads, other, e, i, sid, k.table[sid]);
      EndKeepsNode(k.quads, sid, e.nodes[i], reason, terminal);
    }
    EntryFrame(k.quads, after, other, e);
  }

  lemma FinishKeepsRegistry(k: Kept, sid: ID, reason: string, terminal: ID, q: Quad)
    requires Faithful(k) && Allowed(k, Finish(sid, reason, terminal))
    ensures RegistryAt(Perform(k, Finish(sid, reason, terminal)), q)
  {
    assert RegistryAt(k, q) && EntryAt(k, sid);
    if (q in k.quads) != (q in AfterEnd(k.quads, sid, reason, terminal)) {
      EndDifference(k.quads, sid, reason, terminal, q);
    }
  }

  // ----- one call -----

  lemma CreateStep(k: Kept, sess: Session)
    requires Faithful(k) && Allowed(k, Create(sess))
    ensures Faithful(Perform(k, Create(sess)))
  {
    hide Holds, UnusedSession, AfterCreate;
    var k' := Perform(k, Create(sess));
    CreateHolds(k.quads, sess);
    NotTheRegistry(k.quads, sess.id);
    forall sid ensures EntryAt(k', sid) {
      if sid in k.table { CreateKeepsEntry(k, sess, sid); }
    }
    forall q ensures RegistryAt(k', q) { CreateKeepsRegistry(k, sess, q); }
  }

  lemma NotTheRegistry(quads: set<Quad>, sid: ID)
    requires UnusedSession(quads, sid)
    ensures sid != GLOBAL_SESSIONS
  {
  }

  lemma WriteStep(k: Kept, n: Node)
    requires Faithful(k) && Allowed(k, Write(n))
    ensures Faithful(Perform(k, Write(n)))
  {
    hide Holds, UnusedNode, AfterWrite;
    var k', e := Perform(k, Write(n)), k.table[n.sessionID];
    assert EntryAt(k, n.sessionID);
    WriteHolds(k.quads, e.session, e.nodes, e.ending, n);
    forall sid ensures EntryAt(k', sid) {
      if sid in k.table && sid != n.sessionID { WriteKeepsEntry(k, n, sid); }
    }
    forall q ensures RegistryAt(k', q) { WriteKeepsRegistry(k, n, q); }
  }

  lemma FinishStep(k: Kept, sid: ID, reason: string, terminal: ID)
    requires Faithful(k) && Allowed(k, Finish(sid, reason, terminal))
    ensures Faithful(Perform(k, Finish(sid, reason, terminal)))
  {
    hide Holds, AfterEnd;
    var k', e := Perform(k, Finish(sid, reason, terminal)), k.table[sid];
    assert EntryAt(k, sid);
    EndHolds(k.quads, e.session, e.nodes, reason, terminal);
    forall other ensures EntryAt(k', other) {
      if other in k.table && other != sid { FinishKeepsEntry(k, sid, reason, terminal, other); }
    }
    forall q ensures RegistryAt(k', q) { FinishKeepsRegistry(k, sid, reason, terminal, q); }
  }

  /** Every allowed call keeps the quads and the table in agreement, for all sessions. */
  lemma StepKeepsFaithful(k: Kept, call: Call)
    requires Faithful(k) && Allowed(k, call)
    ensures Faithful(Perform(k, call))
  {
    match call {
      case Create(sess) => CreateStep(k, sess);
      case Write(n) => WriteStep(k, n);
      case Finish(sid, reason, terminal) => FinishStep(k, sid, reason, terminal);
    }
  }

  /** The store accepts every allowed write. */
  lemma AllowedIsAccepted(k: Kept, n: Node)
    requires Faithful(k) && Allowed(k, Write(n))
    ensures Out(k.quads, n.sessionID, PTimestamp) != {} && Replaced(k.quads, n.sessionID, PHead) <= k.quads
  {
    assert EntryAt(k, n.sessionID);
    var e := k.table[n.sessionID];
    WriteAccepted(k.quads, e.session, e.nodes, e.ending);
  }

  lemma CreateIsNew(k: Kept, sess: Session)
    requires Faithful(k) && Allowed(k, Create(sess))
    ensures sess.id !in k.table
  {
    assert EntryAt(k, sess.id);
    if sess.id in k.table { StampKept(k.quads, sess.id, k.table[sess.id]); }
  }

  /** The store holds node n. */
  ghost predicate Applied(k: Kept, n: Node) {
    n.sessionID in k.table && n in k.table[n.sessionID].nodes
  }

  /** Calls lose no node, and a write adds its own. */
  lemma AppliedGrows(k: Kept, call: Call, n: Node)
    requires Faithful(k) && Allowed(k, call)
    ensures Applied(Perform(k, call), n) <==> Applied(k, n) || call == Write(n)
  {
    hide Faithful, UnusedNode, UnusedSession, AfterWrite, AfterCreate, AfterEnd;
    if call.Create? { CreateIsNew(k, call.session); }
  }

  // ----- runs -----

  /** The store after a run from empty, when each of its calls was allowed. */
  ghost function AfterCalls(calls: seq<Call>): Option<Kept> {
    if calls == [] then Some(EMPTY_STORE)
    else
      var before, call := AfterCalls(calls[..|calls| - 1]), calls[|calls| - 1];
      if before.None? || !Allowed(before.value, call) then None else Some(Perform(before.value, call))
  }

  lemma {:induction false} RunsAreFaithful(calls: seq<Call>)
    requires AfterCalls(calls).Some?
    ensures Faithful(AfterCalls(calls).value)
  {
    if calls != [] {
      RunsAreFaithful(calls[..|calls| - 1]);
      StepKeepsFaithful(AfterCalls(calls[..|calls| - 1]).value, calls[|calls| - 1]);
    }
  }
}
