/** The Cayley-backed store: a set of quads, written in atomic batches and read back in arbitrary order. */
module CayleyStore {
  import opened Types
  import opened Sequences
  import opened Quads

  // ----- what a read may return -----

  ghost predicate Lists(qs: seq<Quad>, S: set<Quad>) {
    Distinct(qs) && forall q :: q in qs <==> q in S
  }

  function Out(quads: set<Quad>, subj: ID, pred: Pred): set<Quad> {
    set q | q in quads && q.subj == subj && q.pred == pred
  }

  function In(quads: set<Quad>, obj: Value, pred: Pred): set<Quad> {
    set q | q in quads && q.obj == obj && q.pred == pred
  }

  /** v may be the first value read for (subj, pred). */
  ghost predicate First(quads: set<Quad>, subj: ID, pred: Pred, v: Option<Value>) {
    match v
    case None => Out(quads, subj, pred) == {}
    case Some(x) => exists q :: q in Out(quads, subj, pred) && q.obj == x
  }

  lemma FirstNone(quads: set<Quad>, subj: ID, pred: Pred, v: Option<Value>)
    requires First(quads, subj, pred, v)
    ensures v.None? <==> Out(quads, subj, pred) == {}
  {
  }

  lemma FirstExists(quads: set<Quad>, subj: ID, pred: Pred) returns (v: Option<Value>)
    ensures First(quads, subj, pred, v) && (v.None? <==> Out(quads, subj, pred) == {})
  {
    if Out(quads, subj, pred) == {} {
      v := None;
    } else {
      var q :| q in Out(quads, subj, pred);
      v := Some(q.obj);
    }
  }

  lemma ReadKeepsID(quads: set<Quad>, id: ID, n: Node)
    requires NodeRead(quads, id, n)
    ensures n.id == id
  {
    hide RawRead, EdgesRead;
  }

  lemma IsNodeRead(quads: set<Quad>, id: ID, raw: Raw, edges: seq<EdgeRef>, qs: seq<Quad>, n: Node)
    requires Out(quads, id, PSession) != {} && RawRead(quads, id, raw) && EdgesRead(quads, id, edges, qs)
    requires n == Assemble(id, raw, edges)
    ensures NodeRead(quads, id, n)
  {
  }

  method Enumerate(S: set<Quad>) returns (qs: seq<Quad>)
    ensures Lists(qs, S)
  {
    qs := [];
    var todo := S;
    while todo != {}
      invariant todo <= S && Distinct(qs)
      invariant forall q :: q in qs <==> q in S && q !in todo
      decreases todo
    {
      var q :| q in todo;
      qs, todo := qs + [q], todo - {q};
    }
  }

  // ----- decoding values -----

  function ValToStr(v: Value): string {
    match v
    case IRI(id) => id.text
    case Text(s) => s
    case _ => ""
  }

  function ParseTime(v: Option<Value>): Time {
    if v.Some? && v.value.TimeText? then v.value.t else 0
  }

  function ParseMessage(v: Option<Value>): Message {
    if v.Some? && v.value.MessageText? then v.value.m else NO_MESSAGE
  }

  function ParseWeight(v: Option<Value>): real {
    if v.Some? && v.value.WeightText? then v.value.w else 0.0
  }

  function ParseString(v: Option<Value>): string {
    if v.Some? then ValToStr(v.value) else ""
  }

  /** The first values read for a node. */
  datatype Raw = Raw(
    session: Option<Value>,
    timestamp: Option<Value>,
    message: Option<Value>,
    kind: Option<Value>,
    archived: Option<Value>,
    content: Option<Value>)

  ghost predicate RawRead(quads: set<Quad>, id: ID, raw: Raw) {
    && First(quads, id, PSession, raw.session) && First(quads, id, PTimestamp, raw.timestamp)
    && First(quads, id, PMessage, raw.message) && First(quads, id, PNodeKind, raw.kind)
    && First(quads, id, PArchived, raw.archived) && First(quads, id, PContent, raw.content)
  }

  /** Content is decoded by the node's kind; text of another kind shares no field and decodes to an empty value. */
  function AddContent(n: Node, v: Option<Value>): Node {
    if v.None? then n
    else
      var c := if v.value.ContentText? then v.value.c else NoContent;
      if n.EffectiveKind() == KIND_MEMORY then
        n.(memory := Some(if c.MemoryC? then c.memory else MemoryContent("", [], 0.0)))
      else if n.EffectiveKind() == KIND_SKILL then
        n.(skill := Some(if c.SkillC? then c.skill else SkillContent("", "", "")))
      else if n.EffectiveKind() == KIND_IDENTITY then
        n.(identity := Some(if c.IdentityC? then c.identity else IdentityContent([], [], [])))
      else if n.EffectiveKind() == KIND_SLEEP then
        n.(sleep := Some(if c.SleepC? then c.sleep else SleepContent("")))
      else n
  }

  function Assemble(id: ID, raw: Raw, edges: seq<EdgeRef>): Node {
    AddContent(Node(id, ID(ParseString(raw.session)), ParseTime(raw.timestamp), ParseMessage(raw.message),
                    ParseString(raw.kind), edges, ParseString(raw.archived) == "true", None, None, None, None),
               raw.content)
  }

  /** An edge IRI that does not split into four parts is skipped. */
  predicate Garbled(v: Value) {
    HasEdgePrefix(ValToStr(v)) && |SplitN(ValToStr(v), 4)| != 4
  }

  /** The quads that become edges of node `id`. */
  ghost function EdgeSet(quads: set<Quad>, id: ID): set<Quad> {
    set q | q in quads && q.subj == id && PredToEdgeKind(q.pred).Some? && !Garbled(q.obj)
  }

  ghost predicate EdgeFrom(quads: set<Quad>, q: Quad, e: EdgeRef) {
    var raw := ValToStr(q.obj);
    && PredToEdgeKind(q.pred) == Some(e.kind)
    && if HasEdgePrefix(raw) then
         |SplitN(raw, 4)| == 4 && e.nodeID == ID(SplitN(raw, 4)[3])
         && exists w :: First(quads, ID(raw), PWeight, w) && e.weight == ParseWeight(w)
       else e.nodeID == ID(raw) && e.weight == 0.0
  }

  /** The order in which the kinds of edges are read. */
  function EdgeRank(p: Pred): nat {
    match p
    case PParent => 0
    case PDistilledFrom => 1
    case PAssociatedWith => 2
    case PRecalledIn => 3
    case PEvolvedFrom => 4
    case PProceduralOf => 5
    case PArchives => 6
    case _ => 7
  }

  /** Kind by kind, in that order. */
  ghost predicate Grouped(qs: seq<Quad>) {
    forall i, j :: 0 <= i < j < |qs| ==> EdgeRank(qs[i].pred) <= EdgeRank(qs[j].pred)
  }

  /** Each edge quad gives one edge, kind by kind, and within a kind in some order. */
  ghost predicate EdgesRead(quads: set<Quad>, id: ID, edges: seq<EdgeRef>, qs: seq<Quad>) {
    && Lists(qs, EdgeSet(quads, id)) && Grouped(qs) && |edges| == |qs|
    && forall i :: 0 <= i < |qs| ==> EdgeFrom(quads, qs[i], edges[i])
  }

  /** n may be what GetNode(id) returns. */
  ghost predicate NodeRead(quads: set<Quad>, id: ID, n: Node) {
    Out(quads, id, PSession) != {}
    && exists raw, edges, qs :: RawRead(quads, id, raw) && EdgesRead(quads, id, edges, qs)
        && n == Assemble(id, raw, edges)
  }

  /** The first values read for a session. */
  datatype RawSession = RawSession(
    timestamp: Option<Value>,
    status: Option<Value>,
    spawnedFromSession: Option<Value>,
    spawnedFromNode: Option<Value>)
  {
    function Status(): SessionStatus {
      if ParseString(status) == STATUS_CLOSED then StatusClosed else StatusOpen
    }

    function AsSession(sid: ID): Session {
      Session(sid, ParseTime(timestamp),
              if spawnedFromSession.Some? && spawnedFromNode.Some?
              then Some(SpawnReference(ID(ParseString(spawnedFromSession)), ID(ParseString(spawnedFromNode))))
              else None)
    }
  }

  ghost predicate RawSessionRead(quads: set<Quad>, sid: ID, raw: RawSession) {
    && First(quads, sid, PTimestamp, raw.timestamp) && First(quads, sid, PStatus, raw.status)
    && First(quads, sid, PSpawnedFromSession, raw.spawnedFromSession)
    && First(quads, sid, PSpawnedFromNode, raw.spawnedFromNode)
  }

  /** sess and status may be what GetSession(sid) returns. */
  ghost predicate SessionRead(quads: set<Quad>, sid: ID, sess: Session, status: SessionStatus) {
    exists raw :: RawSessionRead(quads, sid, raw) && raw.timestamp.Some? && status == raw.Status()
      && sess == raw.AsSession(sid)
  }

  /** A session is closed if its status reads "closed", and spawned if both halves of the reference are there. */
  lemma SessionReadMeans(quads: set<Quad>, sid: ID, sess: Session, status: SessionStatus)
    requires SessionRead(quads, sid, sess, status)
    ensures sess.id == sid
    ensures exists ts :: First(quads, sid, PTimestamp, Some(ts)) && sess.timestamp == if ts.TimeText? then ts.t else 0
    ensures exists st :: First(quads, sid, PStatus, st) && (status.StatusClosed? <==> ParseString(st) == "closed")
    ensures exists ss, sn ::
      && First(quads, sid, PSpawnedFromSession, ss) && First(quads, sid, PSpawnedFromNode, sn)
      && sess.spawnedFrom == if ss.None? || sn.None? then None
                             else Some(SpawnReference(ID(ValToStr(ss.value)), ID(ValToStr(sn.value))))
  {
    hide First;
    var raw :| RawSessionRead(quads, sid, raw) && raw.timestamp.Some? && status == raw.Status()
      && sess == raw.AsSession(sid);
    assert First(quads, sid, PTimestamp, Some(raw.timestamp.value));
  }

  /** The nodes are read one by one, in whatever order the session's membership quads come. */
  ghost predicate NodesRead(quads: set<Quad>, qs: seq<Quad>, nodes: seq<Node>) {
    |nodes| == |qs| && forall i :: 0 <= i < |qs| ==> NodeRead(quads, qs[i].subj, nodes[i])
  }

  // ----- the effects of the write methods on the quads -----

  function MemberQuad(sid: ID): Quad {
    Quad(GLOBAL_SESSIONS, PMember, IRI(sid), GLOBAL_LABEL)
  }

  ghost function QuadSet(qs: seq<Quad>): set<Quad> {
    set q | q in qs
  }

  ghost function AfterCreate(quads: set<Quad>, sess: Session): set<Quad> {
    quads + QuadSet(SessionQuads(sess)) + {MemberQuad(sess.id)}
  }

  /** The quads deleted to replace the values of (sid, pred); their label is always the session. */
  ghost function Replaced(quads: set<Quad>, sid: ID, pred: Pred): set<Quad> {
    set q | q in Out(quads, sid, pred) :: Quad(sid, pred, q.obj, sid)
  }

  ghost function AfterWrite(quads: set<Quad>, n: Node): set<Quad> {
    quads + QuadSet(NodeQuads(n)) - Replaced(quads, n.sessionID, PHead)
    + {Quad(n.sessionID, PHead, IRI(n.id), n.sessionID)}
  }

  ghost function AfterEnd(quads: set<Quad>, sid: ID, reason: string, terminal: ID): set<Quad> {
    quads - Replaced(quads, sid, PStatus)
    + {Quad(sid, PStatus, Text(STATUS_CLOSED), sid), Quad(sid, PEndReason, Text(reason), sid),
      Quad(sid, PEndNode, IRI(terminal), sid)}
  }

  lemma {:induction false} ApplyDeletes(quads: set<Quad>, deleted: seq<Quad>, q: Quad)
    ensures q in ApplyAll(quads, Deletes(deleted)) <==> q in quads && q !in deleted
  {
    if deleted != [] {
      var m := |deleted| - 1;
      assert Deletes(deleted)[..m] == Deletes(deleted[..m]);
      ApplyDeletes(quads, deleted[..m], q);
      assert deleted == deleted[..m] + [deleted[m]];
    }
  }

  function Deletes(quads: seq<Quad>): seq<Delta> {
    seq(|quads|, i requires 0 <= i < |quads| => Delete(quads[i]))
  }

  class Store {
    var quads: set<Quad>

    constructor ()
      ensures quads == {}
    {
      quads := {};
    }

    method OutValues(subj: ID, pred: Pred) returns (vals: seq<Value>, ghost qs: seq<Quad>)
      ensures Lists(qs, Out(quads, subj, pred))
      ensures |vals| == |qs| && forall i :: 0 <= i < |qs| ==> vals[i] == qs[i].obj
    {
      var found := Enumerate(Out(quads, subj, pred));
      qs := found;
      vals := seq(|found|, i requires 0 <= i < |found| => found[i].obj);
    }

    method FirstOut(subj: ID, pred: Pred) returns (v: Option<Value>)
      ensures First(quads, subj, pred, v)
    {
      var vals, qs := OutValues(subj, pred);
      if |vals| == 0 {
        assert forall q :: q in Out(quads, subj, pred) ==> q in qs;
        return None;
      }
      assert qs[0] in qs;
      v := Some(vals[0]);
    }

    /** All or nothing: a batch that deletes an absent quad is refused unless missing quads are ignored. */
    method ApplyDeltas(deltas: seq<Delta>, ignoreMissing: bool) returns (err: Option<Error>)
      modifies this
      ensures if !ignoreMissing && exists d :: d in deltas && d.Delete? && d.quad !in old(quads)
              then err == Some(QuadMissing) && quads == old(quads)
              else err == None && quads == ApplyAll(old(quads), deltas)
    {
      if !ignoreMissing {
        for i := 0 to |deltas|
          invariant forall k :: 0 <= k < i && deltas[k].Delete? ==> deltas[k].quad in quads
        {
          if deltas[i].Delete? && deltas[i].quad !in quads {
            assert deltas[i] in deltas;
            return Some(QuadMissing);
          }
        }
      }
      for i := 0 to |deltas|
        invariant quads == ApplyAll(old(quads), deltas[..i])
      {
        assert deltas[..i + 1][..i] == deltas[..i];
        match deltas[i] {
          case Add(q) => quads := quads + {q};
          case Delete(q) => quads := quads - {q};
        }
      }
      assert deltas[..|deltas|] == deltas;
      err := None;
    }

    // ----- writing -----

    method CreateSession(sess: Session) returns (err: Option<Error>)
      modifies this
      ensures err == None && quads == AfterCreate(old(quads), sess)
    {
      var deltas := [Add(Quad(sess.id, PTimestamp, TimeText(sess.timestamp), sess.id)),
                     Add(Quad(sess.id, PStatus, Text(STATUS_OPEN), sess.id))];
      if sess.spawnedFrom.Some? {
        deltas := deltas + [Add(Quad(sess.id, PSpawnedFromSession, IRI(sess.spawnedFrom.value.sessionID), sess.id)),
                            Add(Quad(sess.id, PSpawnedFromNode, IRI(sess.spawnedFrom.value.nodeID), sess.id))];
      }
      assert deltas == Adds(SessionQuads(sess));
      deltas := deltas + [Add(MemberQuad(sess.id))];
      assert deltas == Adds(SessionQuads(sess) + [MemberQuad(sess.id)]);
      err := ApplyDeltas(deltas, false);
      forall q ensures q in quads <==> q in AfterCreate(old(quads), sess) {
        ApplyAdds(old(quads), SessionQuads(sess) + [MemberQuad(sess.id)], q);
      }
    }

    /** Deletions of every value of (sid, pred), as the upserts issue them. */
    method Replacing(sid: ID, pred: Pred) returns (deltas: seq<Delta>, ghost deleted: seq<Quad>)
      ensures deltas == Deletes(deleted) && QuadSet(deleted) == Replaced(quads, sid, pred)
    {
      var vals, qs := OutValues(sid, pred);
      deltas, deleted := [], [];
      for i := 0 to |vals|
        invariant deltas == Deletes(deleted) && |deleted| == i
        invariant forall k :: 0 <= k < i ==> deleted[k] == Quad(sid, pred, vals[k], sid)
      {
        deltas := deltas + [Delete(Quad(sid, pred, vals[i], sid))];
        deleted := deleted + [Quad(sid, pred, vals[i], sid)];
      }
      forall q ensures q in QuadSet(deleted) <==> q in Replaced(quads, sid, pred) {
        if q in QuadSet(deleted) {
          var k :| 0 <= k < |deleted| && deleted[k] == q;
          assert qs[k] in qs;
        }
        if q in Replaced(quads, sid, pred) {
          var p :| p in Out(quads, sid, pred) && q == Quad(sid, pred, p.obj, sid);
          assert p in qs;
          var k :| 0 <= k < |qs| && qs[k] == p;
          assert deleted[k] == q;
        }
      }
    }

    method WriteNode(n: Node) returns (err: Option<Error>)
      modifies this
      ensures
        if Out(old(quads), n.sessionID, PTimestamp) == {} then
          err == Some(SessionNotFound(n.sessionID)) && quads == old(quads)
        else if !(Replaced(old(quads), n.sessionID, PHead) <= old(quads)) then
          err == Some(QuadMissing) && quads == old(quads)
        else err == None && quads == AfterWrite(old(quads), n)
    {
      var found := GetSession(n.sessionID);
      if found.Err? { return Some(SessionNotFound(n.sessionID)); }
      var deltas := NodeToDeltas(n);
      var replacing, deleted := Replacing(n.sessionID, PHead);
      ghost var head := Quad(n.sessionID, PHead, IRI(n.id), n.sessionID);
      deltas := deltas + replacing + [Add(Quad(n.sessionID, PHead, IRI(n.id), n.sessionID))];
      WriteDeltas(quads, NodeQuads(n), deleted, head);
      err := ApplyDeltas(deltas, false);
    }

    method EndSession(sid: ID, reason: string, terminal: ID) returns (err: Option<Error>)
      modifies this
      ensures err == None && quads == AfterEnd(old(quads), sid, reason, terminal)
    {
      var replacing, deleted := Replacing(sid, PStatus);
      var added := [Quad(sid, PStatus, Text(STATUS_CLOSED), sid), Quad(sid, PEndReason, Text(reason), sid),
                    Quad(sid, PEndNode, IRI(terminal), sid)];
      var deltas := replacing + [Add(added[0]), Add(added[1]), Add(added[2])];
      assert deltas == Deletes(deleted) + Adds(added);
      ApplyConcat(quads, Deletes(deleted), Adds(added));
      err := ApplyDeltas(deltas, true);
      forall q ensures q in quads <==> q in AfterEnd(old(quads), sid, reason, terminal) {
        ApplyAdds(ApplyAll(old(quads), Deletes(deleted)), added, q);
        ApplyDeletes(old(quads), deleted, q);
        assert q in deleted <==> q in QuadSet(deleted);
      }
    }

    // ----- reading -----

    method GetSession(sid: ID) returns (r: Result<(Session, SessionStatus), Error>)
      ensures r.Err? <==> Out(quads, sid, PTimestamp) == {}
      ensures r.Err? ==> r.error == SessionNotFound(sid)
      ensures r.Ok? ==> SessionRead(quads, sid, r.value.0, r.value.1)
    {
      var ts := FirstOut(sid, PTimestamp);
      if ts.None? { return Err(SessionNotFound(sid)); }
      var status := FirstOut(sid, PStatus);
      var ss := FirstOut(sid, PSpawnedFromSession);
      var sn := FirstOut(sid, PSpawnedFromNode);
      ghost var raw := RawSession(ts, status, ss, sn);
      assert RawSessionRead(quads, sid, raw);
      var sess := Session(sid, ParseTime(ts), None);
      if ss.Some? && sn.Some? {
        sess := sess.(spawnedFrom := Some(SpawnReference(ID(ValToStr(ss.value)), ID(ValToStr(sn.value)))));
      }
      assert sess == raw.AsSession(sid);
      r := Ok((sess, if ParseString(status) == STATUS_CLOSED then StatusClosed else StatusOpen));
    }

    /** Reads one edge value, unless it is a garbled edge IRI. */
    method ReadEdge(kind: EdgeKind, v: Value) returns (e: Option<EdgeRef>)
      ensures e.None? <==> Garbled(v)
      ensures e.Some? ==> forall q: Quad :: q.obj == v && PredToEdgeKind(q.pred) == Some(kind) ==>
        EdgeFrom(quads, q, e.value)
    {
      var raw := ValToStr(v);
      if HasEdgePrefix(raw) {
        var parts := SplitN(raw, 4);
        if |parts| != 4 { return None; }
        var w := FirstOut(ID(raw), PWeight);
        e := Some(EdgeRef(kind, ID(parts[3]), ParseWeight(w)));
      } else {
        e := Some(EdgeRef(kind, ID(raw), 0.0));
      }
    }

    method ReconstructEdges(id: ID) returns (edges: seq<EdgeRef>, ghost qs: seq<Quad>)
      ensures EdgesRead(quads, id, edges, qs)
    {
      var preds := [PParent, PDistilledFrom, PAssociatedWith, PRecalledIn, PEvolvedFrom, PProceduralOf, PArchives,
        PBranchFrom];
      edges, qs := [], [];
      for i := 0 to |preds|
        invariant |edges| == |qs| && forall k :: 0 <= k < |qs| ==> EdgeFrom(quads, qs[k], edges[k])
        invariant Distinct(qs) && forall q :: q in qs <==> q in EdgeSet(quads, id) && q.pred in preds[..i]
        invariant Grouped(qs) && forall q :: q in qs ==> EdgeRank(q.pred) < i
      {
        assert EdgeRank(preds[i]) == i;
        edges, qs := ReadPred(id, preds[i], edges, qs, preds[..i]);
        assert preds[..i + 1] == preds[..i] + [preds[i]];
      }
      assert preds[..|preds|] == preds;
      forall q | q in EdgeSet(quads, id) ensures q.pred in preds { AllEdgePreds(q.pred); }
    }

    /** Appends the edges stored under one predicate. */
    method ReadPred(id: ID, pred: Pred, edges: seq<EdgeRef>, ghost qs: seq<Quad>, ghost before: seq<Pred>)
      returns (edges': seq<EdgeRef>, ghost qs': seq<Quad>)
      requires PredToEdgeKind(pred).Some? && pred !in before
      requires |edges| == |qs| && forall k :: 0 <= k < |qs| ==> EdgeFrom(quads, qs[k], edges[k])
      requires Distinct(qs) && forall q :: q in qs <==> q in EdgeSet(quads, id) && q.pred in before
      requires Grouped(qs) && forall q :: q in qs ==> EdgeRank(q.pred) < EdgeRank(pred)
      ensures |edges'| == |qs'| && forall k :: 0 <= k < |qs'| ==> EdgeFrom(quads, qs'[k], edges'[k])
      ensures Distinct(qs') && forall q :: q in qs' <==> q in EdgeSet(quads, id) && (q.pred in before || q.pred == pred)
      ensures Grouped(qs') && forall q :: q in qs' ==> EdgeRank(q.pred) <= EdgeRank(pred)
    {
      var vals, found := OutValues(id, pred);
      edges', qs' := edges, qs;
      for j := 0 to |vals|
        invariant |edges'| == |qs'| && forall k :: 0 <= k < |qs'| ==> EdgeFrom(quads, qs'[k], edges'[k])
        invariant Distinct(qs') && forall q :: q in qs' <==> q in qs || (q in found[..j] && !Garbled(q.obj))
        invariant Grouped(qs') && forall q :: q in qs' ==> EdgeRank(q.pred) <= EdgeRank(pred)
      {
        assert found[..j + 1] == found[..j] + [found[j]];
        assert found[j] in found && found[j] !in found[..j];
        var e := ReadEdge(PredToEdgeKind(pred).value, vals[j]);
        if e.Some? {
          GroupedNext(qs', found[j]);
          edges', qs' := edges' + [e.value], qs' + [found[j]];
        }
      }
      assert found[..|vals|] == found;
    }

    method GetNode(id: ID) returns (r: Result<Node, Error>)
      ensures r.Err? <==> Out(quads, id, PSession) == {}
      ensures r.Err? ==> r.error == NodeNotFound(id)
      ensures r.Ok? ==> NodeRead(quads, id, r.value)
    {
      hide First, NodeRead, EdgesRead, AddContent, Out;
      var session := FirstOut(id, PSession);
      FirstNone(quads, id, PSession, session);
      if session.None? { return Err(NodeNotFound(id)); }
      var ts := FirstOut(id, PTimestamp);
      var msg := FirstOut(id, PMessage);
      var kind := FirstOut(id, PNodeKind);
      var archived := FirstOut(id, PArchived);
      var content := FirstOut(id, PContent);
      var edges, qs := ReconstructEdges(id);
      ghost var raw := Raw(session, ts, msg, kind, archived, content);
      var n := Node(id, ID(ValToStr(session.value)), ParseTime(ts), ParseMessage(msg), ParseString(kind), edges,
                    ParseString(archived) == "true", None, None, None, None);
      r := Ok(AddContent(n, content));
      IsNodeRead(quads, id, raw, edges, qs, r.value);
    }

    /** Membership quads always lead to a node, so the per-node error of the source cannot arise here. */
    method ReadNodes(members: seq<Quad>) returns (nodes: seq<Node>)
      requires forall i :: 0 <= i < |members| ==> members[i] in quads && members[i].pred == PSession
      ensures NodesRead(quads, members, nodes)
    {
      nodes := [];
      for i := 0 to |members|
        invariant |nodes| == i && forall k :: 0 <= k < i ==> NodeRead(quads, members[k].subj, nodes[k])
      {
        var id := members[i].subj;
        assert members[i] in Out(quads, id, PSession);
        var n := GetNode(id);
        nodes := nodes + [n.value];
      }
    }
  }

  lemma GroupedNext(qs: seq<Quad>, q: Quad)
    requires Grouped(qs) && forall p :: p in qs ==> EdgeRank(p.pred) <= EdgeRank(q.pred)
    ensures Grouped(qs + [q])
  {
  }

  lemma AllEdgePreds(p: Pred)
    requires PredToEdgeKind(p).Some?
    ensures p in [PParent, PDistilledFrom, PAssociatedWith, PRecalledIn, PEvolvedFrom, PProceduralOf, PArchives,
                  PBranchFrom]
  {
    var preds := [PParent, PDistilledFrom, PAssociatedWith, PRecalledIn, PEvolvedFrom, PProceduralOf, PArchives,
      PBranchFrom];
    assert preds[0] == PParent && preds[1] == PDistilledFrom && preds[2] == PAssociatedWith && preds[3] == PRecalledIn;
    assert preds[4] == PEvolvedFrom && preds[5] == PProceduralOf && preds[6] == PArchives && preds[7] == PBranchFrom;
  }

  /** A batch of additions, deletions and one more addition. */
  lemma WriteDeltas(quads: set<Quad>, added: seq<Quad>, deleted: seq<Quad>, head: Quad)
    ensures var deltas := Adds(added) + Deletes(deleted) + [Add(head)];
      && ApplyAll(quads, deltas) == quads + QuadSet(added) - QuadSet(deleted) + {head}
      && ((exists d :: d in deltas && d.Delete? && d.quad !in quads) <==> !(QuadSet(deleted) <= quads))
  {
    hide Adds, Deletes;
    DeltasRefused(quads, added, deleted, head);
    var deltas := Adds(added) + Deletes(deleted) + [Add(head)];
    assert deltas[..|deltas| - 1] == Adds(added) + Deletes(deleted);
    ApplyConcat(quads, Adds(added), Deletes(deleted));
    forall q ensures q in ApplyAll(quads, deltas) <==> q in quads + QuadSet(added) - QuadSet(deleted) + {head} {
      ApplyAdds(quads, added, q);
      ApplyDeletes(ApplyAll(quads, Adds(added)), deleted, q);
    }
  }

  /** The batch deletes an absent quad exactly when one of the deleted quads is absent. */
  lemma DeltasRefused(quads: set<Quad>, added: seq<Quad>, deleted: seq<Quad>, head: Quad)
    ensures var deltas := Adds(added) + Deletes(deleted) + [Add(head)];
      (exists d :: d in deltas && d.Delete? && d.quad !in quads) <==> !(QuadSet(deleted) <= quads)
  {
    var deltas := Adds(added) + Deletes(deleted) + [Add(head)];
    if !(QuadSet(deleted) <= quads) {
      var q :| q in QuadSet(deleted) && q !in quads;
      var k :| 0 <= k < |deleted| && deleted[k] == q;
      assert Deletes(deleted)[k] == Delete(q);
      assert deltas[|added| + k] == Delete(q);
    }
    if exists d :: d in deltas && d.Delete? && d.quad !in quads {
      var d :| d in deltas && d.Delete? && d.quad !in quads;
      var k :| 0 <= k < |deltas| && deltas[k] == d;
      assert |added| <= k < |added| + |deleted| && d.quad == deleted[k - |added|];
    }
  }
}
