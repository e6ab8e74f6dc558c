/** Reading a node's quads gives the node back. */
module NodeCodec {
  import opened Types
  import opened Sequences
  import opened Quads
  import opened CayleyStore

  // ----- conditions on a node -----

  /**
   Known kinds, plain targets that are no edge IRIs, and, of reified edges, a colon-free node ID and one weight
   each.
   */
  ghost predicate CleanEdges(n: Node) {
    && (forall e :: e in n.edges ==> EdgeKindToPred(e.kind).Some?)
    && (forall e :: e in n.edges && !IsReified(e) ==> !HasEdgePrefix(e.nodeID.text))
    && (forall e :: e in n.edges && IsReified(e) ==> ColonFree(n.id.text))
    && forall e, f :: e in n.edges && f in n.edges && IsReified(e) && IsReified(f) ==>
         e.kind == f.kind && e.nodeID == f.nodeID ==> e.weight == f.weight
  }

  /** What is stored of an edge: weights survive on the two weighted kinds only. */
  function Normal(e: EdgeRef): EdgeRef {
    e.(weight := if IsWeightedEdge(e.kind) then e.weight else 0.0)
  }

  ghost predicate IsEdgeIRIOf(n: Node, x: ID) {
    exists e :: e in n.edges && IsReified(e) && EdgeKindToPred(e.kind).Some? && x == EdgeIRI(n.id, e.kind, e.nodeID)
  }

  /** The store holds n's quads, and nothing else under n's subject or under the weights of its edges. */
  ghost predicate Owns(quads: set<Quad>, n: Node) {
    && (forall q :: q in NodeQuads(n) ==> q in quads)
    && (forall q :: q in quads && q.subj == n.id ==> q in NodeQuads(n))
    && forall q :: q in quads && q.pred == PWeight && IsEdgeIRIOf(n, q.subj) ==> q in NodeQuads(n)
  }

  // ----- where a node's quads come from -----

  function MainQuad(n: Node, e: EdgeRef): Quad
    requires EdgeKindToPred(e.kind).Some?
  {
    Quad(n.id, EdgeKindToPred(e.kind).value, IRI(if IsReified(e) then EdgeIRI(n.id, e.kind, e.nodeID) else e.nodeID),
      n.sessionID)
  }

  function WeightQuad(n: Node, e: EdgeRef): Quad {
    Quad(EdgeIRI(n.id, e.kind, e.nodeID), PWeight, WeightText(e.weight), n.sessionID)
  }

  lemma EdgeQuadsAre(n: Node, e: EdgeRef, q: Quad)
    ensures q in EdgeQuads(n, e) <==>
      EdgeKindToPred(e.kind).Some? && (q == MainQuad(n, e) || (IsReified(e) && q == WeightQuad(n, e)))
  {
  }

  /** Every quad of a node is a base quad, an edge, or the weight of a reified edge. */
  lemma NodeQuadsAre(n: Node, q: Quad)
    ensures q in NodeQuads(n) <==> q in BaseQuads(n) || exists e :: e in n.edges && q in EdgeQuads(n, e)
  {
    EdgeQuadOrigin(n, |n.edges|, q);
    if exists e :: e in n.edges && q in EdgeQuads(n, e) {
      var e :| e in n.edges && q in EdgeQuads(n, e);
      var i :| 0 <= i < |n.edges| && n.edges[i] == e;
    }
  }

  /** What the store is told of a node itself; of several contents only the first of memory, skill, identity, sleep. */
  ghost predicate NodeFact(n: Node, q: Quad) {
    && q.subj == n.id && q.lbl == n.sessionID
    && match q.pred
       case PSession => q.obj == IRI(n.sessionID)
       case PTimestamp => q.obj == TimeText(n.timestamp)
       case PMessage => q.obj == MessageText(n.message)
       case PNodeKind => n.kind != "" && q.obj == Text(n.kind)
       case PArchived => n.archived && q.obj == Text("true")
       case PContent =>
         if n.memory.Some? then q.obj == ContentText(MemoryC(n.memory.value))
         else if n.skill.Some? then q.obj == ContentText(SkillC(n.skill.value))
         else if n.identity.Some? then q.obj == ContentText(IdentityC(n.identity.value))
         else n.sleep.Some? && q.obj == ContentText(SleepC(n.sleep.value))
       case _ => false
  }

  /** What it is told of an edge: a weighted one goes through an IRI of its own, which carries the weight. */
  ghost predicate EdgeFact(n: Node, e: EdgeRef, q: Quad) {
    var iri := ID("edge:" + (n.id.text + (":" + (e.kind.name + (":" + e.nodeID.text)))));
    && q.lbl == n.sessionID && EdgeKindToPred(e.kind).Some?
    && if e.weight != 0.0 && e.kind.name in {"associated_with", "recalled_in"} then
         || (q.subj == n.id && Some(q.pred) == EdgeKindToPred(e.kind) && q.obj == IRI(iri))
         || (q.subj == iri && q.pred == PWeight && q.obj == WeightText(e.weight))
       else q.subj == n.id && Some(q.pred) == EdgeKindToPred(e.kind) && q.obj == IRI(e.nodeID)
  }

  lemma EdgeFacts(n: Node, e: EdgeRef, q: Quad)
    ensures q in EdgeQuads(n, e) <==> EdgeFact(n, e, q)
  {
    var id, k, t := n.id.text, e.kind.name, e.nodeID.text;
    assert Join("edge", Join(id, Join(k, t))) == "edge:" + (id + (":" + (k + (":" + t))));
    assert e.kind == ASSOCIATED_WITH <==> k == "associated_with";
    assert e.kind == RECALLED_IN <==> k == "recalled_in";
  }

  /** The quads of a node are exactly the facts about it and its edges. */
  lemma NodeFacts(n: Node, q: Quad)
    ensures q in NodeQuads(n) <==> NodeFact(n, q) || exists e :: e in n.edges && EdgeFact(n, e, q)
  {
    hide NodeQuads, EdgeQuads, EdgeFact;
    NodeQuadsAre(n, q);
    assert q in BaseQuads(n) <==> NodeFact(n, q);
    forall e ensures q in EdgeQuads(n, e) <==> EdgeFact(n, e, q) { EdgeFacts(n, e, q); }
  }

  lemma EdgeQuadIn(n: Node, e: EdgeRef)
    requires e in n.edges && EdgeKindToPred(e.kind).Some?
    ensures MainQuad(n, e) in NodeQuads(n) && (IsReified(e) ==> WeightQuad(n, e) in NodeQuads(n))
  {
    EdgeQuadsAre(n, e, MainQuad(n, e));
    EdgeQuadsAre(n, e, WeightQuad(n, e));
    NodeQuadsAre(n, MainQuad(n, e));
    NodeQuadsAre(n, WeightQuad(n, e));
  }

  lemma EdgePredNotBase(n: Node, q: Quad)
    requires q in BaseQuads(n)
    ensures PredToEdgeKind(q.pred).None? && q.pred != PWeight && q.subj == n.id
  {
  }

  lemma EdgePredKnown(k: EdgeKind)
    requires EdgeKindToPred(k).Some?
    ensures PredToEdgeKind(EdgeKindToPred(k).value) == Some(k) && EdgeKindToPred(k).value != PWeight
  {
  }

  /** The quads read as edges are the main quads of the node's edges, unless they are garbled. */
  lemma EdgeSetIs(quads: set<Quad>, n: Node, q: Quad)
    requires Owns(quads, n)
    ensures q in EdgeSet(quads, n.id) <==>
      !Garbled(q.obj) && exists e :: e in n.edges && EdgeKindToPred(e.kind).Some? && q == MainQuad(n, e)
  {
    hide MainQuad, NodeQuads, BaseQuads, EdgeQuads, Garbled, EdgeKindToPred;
    if q in EdgeSet(quads, n.id) {
      NodeQuadsAre(n, q);
      if q in BaseQuads(n) { EdgePredNotBase(n, q); }
      var e :| e in n.edges && q in EdgeQuads(n, e);
      EdgeQuadsAre(n, e, q);
      WeightIsNoEdge(n, e);
      assert q == MainQuad(n, e);
    }
    if e :| e in n.edges && EdgeKindToPred(e.kind).Some? && q == MainQuad(n, e) {
      EdgeQuadIn(n, e);
      MainIsEdge(n, e);
    }
  }

  lemma WeightIsNoEdge(n: Node, e: EdgeRef)
    ensures PredToEdgeKind(WeightQuad(n, e).pred).None?
  {
  }

  lemma MainIsEdge(n: Node, e: EdgeRef)
    requires EdgeKindToPred(e.kind).Some?
    ensures var q := MainQuad(n, e); q.subj == n.id && PredToEdgeKind(q.pred) == Some(e.kind)
  {
    EdgePredKnown(e.kind);
  }

  lemma CleanIsReadable(n: Node, e: EdgeRef)
    requires CleanEdges(n) && e in n.edges
    ensures EdgeKindToPred(e.kind).Some? && !Garbled(MainQuad(n, e).obj)
  {
    hide SplitN;
    if IsReified(e) { EdgeIRISplits(n.id, e.kind, e.nodeID); }
  }

  lemma ReifiedFromMain(quads: set<Quad>, n: Node, e: EdgeRef, e': EdgeRef)
    requires Owns(quads, n) && CleanEdges(n) && e in n.edges && IsReified(e) && EdgeFrom(quads, MainQuad(n, e), e')
    ensures e'.nodeID == e.nodeID && e'.weight == e.weight
  {
    hide SplitN, Owns, First;
    var iri := EdgeIRI(n.id, e.kind, e.nodeID);
    EdgeIRIHasPrefix(n.id, e.kind, e.nodeID);
    EdgeIRISplits(n.id, e.kind, e.nodeID);
    assert ValToStr(MainQuad(n, e).obj) == iri.text && ID(iri.text) == iri;
    assert SplitN(iri.text, 4)[3] == e.nodeID.text;
    var w :| First(quads, iri, PWeight, w) && e'.weight == ParseWeight(w);
    WeightIs(quads, n, e, w);
  }

  /** Reading the main quad of an edge gives the edge in normal form. */
  lemma EdgeFromMain(quads: set<Quad>, n: Node, e: EdgeRef, e': EdgeRef)
    requires Owns(quads, n) && CleanEdges(n) && e in n.edges && EdgeFrom(quads, MainQuad(n, e), e')
    ensures e' == Normal(e)
  {
    EdgePredKnown(e.kind);
    if IsReified(e) {
      ReifiedFromMain(quads, n, e, e');
    } else {
      assert ValToStr(MainQuad(n, e).obj) == e.nodeID.text && ID(e.nodeID.text) == e.nodeID;
    }
  }

  lemma WeightIs(quads: set<Quad>, n: Node, e: EdgeRef, w: Option<Value>)
    requires Owns(quads, n) && CleanEdges(n) && e in n.edges && IsReified(e)
    requires First(quads, EdgeIRI(n.id, e.kind, e.nodeID), PWeight, w)
    ensures w == Some(WeightText(e.weight))
  {
    var iri := EdgeIRI(n.id, e.kind, e.nodeID);
    EdgeQuadIn(n, e);
    assert WeightQuad(n, e) in Out(quads, iri, PWeight);
    var q :| q in Out(quads, iri, PWeight) && Some(q.obj) == w;
    assert IsEdgeIRIOf(n, q.subj);
    NodeQuadsAre(n, q);
    if q in BaseQuads(n) { EdgePredNotBase(n, q); }
    var f :| f in n.edges && q in EdgeQuads(n, f);
    EdgeQuadsAre(n, f, q);
    EdgePredKnown(f.kind);
    EdgeIRIInjective(n.id, f.kind, f.nodeID, n.id, e.kind, e.nodeID);
  }

  lemma SameNormalSameQuad(n: Node, e: EdgeRef, f: EdgeRef)
    requires EdgeKindToPred(e.kind).Some? && EdgeKindToPred(f.kind).Some? && Normal(e) == Normal(f)
    ensures MainQuad(n, e) == MainQuad(n, f)
  {
    assert e.kind == f.kind && e.nodeID == f.nodeID;
  }

  /** The normal forms of n's edges, each once. */
  ghost predicate NormalEdges(n: Node, edges: seq<EdgeRef>) {
    && (forall e' :: e' in edges <==> exists e :: e in n.edges && e' == Normal(e))
    && Distinct(edges)
  }

  /** Edge i was read from the main quad of some edge. */
  lemma EdgeOrigin(quads: set<Quad>, n: Node, edges: seq<EdgeRef>, qs: seq<Quad>, i: nat) returns (e: EdgeRef)
    requires Owns(quads, n) && EdgesRead(quads, n.id, edges, qs) && i < |edges|
    ensures e in n.edges && EdgeKindToPred(e.kind).Some? && qs[i] == MainQuad(n, e) && EdgeFrom(quads, qs[i], edges[i])
    ensures edges[i].kind == e.kind
  {
    hide Owns, EdgeSet, MainQuad;
    assert qs[i] in qs;
    EdgeSetIs(quads, n, qs[i]);
    e :| e in n.edges && EdgeKindToPred(e.kind).Some? && qs[i] == MainQuad(n, e);
    MainIsEdge(n, e);
  }

  /** The place of an edge that is not garbled. */
  lemma EdgePlace(quads: set<Quad>, n: Node, edges: seq<EdgeRef>, qs: seq<Quad>, e: EdgeRef) returns (i: nat)
    requires Owns(quads, n) && EdgesRead(quads, n.id, edges, qs)
    requires e in n.edges && EdgeKindToPred(e.kind).Some? && !Garbled(MainQuad(n, e).obj)
    ensures i < |edges| == |qs| && qs[i] == MainQuad(n, e) && EdgeFrom(quads, qs[i], edges[i])
  {
    hide Owns, EdgeSet, MainQuad;
    EdgeSetIs(quads, n, MainQuad(n, e));
    i :| 0 <= i < |qs| && qs[i] == MainQuad(n, e);
  }

  /** Edge round trip: the edges read are exactly the normal forms of the node's edges, each once. */
  lemma EdgeRoundTrip(quads: set<Quad>, n: Node, edges: seq<EdgeRef>, qs: seq<Quad>)
    requires Owns(quads, n) && CleanEdges(n) && EdgesRead(quads, n.id, edges, qs)
    ensures NormalEdges(n, edges)
  {
    hide Owns, EdgeFrom, Normal, EdgeSet, EdgesRead, MainQuad, Garbled, CleanEdges;
    forall i | 0 <= i < |edges| ensures exists e :: e in n.edges && edges[i] == Normal(e) {
      var e := EdgeOrigin(quads, n, edges, qs, i);
      EdgeFromMain(quads, n, e, edges[i]);
    }
    forall e | e in n.edges ensures Normal(e) in edges {
      CleanIsReadable(n, e);
      var i := EdgePlace(quads, n, edges, qs, e);
      EdgeFromMain(quads, n, e, edges[i]);
    }
    forall i, j | 0 <= i < j < |edges| ensures edges[i] != edges[j] {
      var e := EdgeOrigin(quads, n, edges, qs, i);
      var f := EdgeOrigin(quads, n, edges, qs, j);
      EdgeFromMain(quads, n, e, edges[i]);
      EdgeFromMain(quads, n, f, edges[j]);
      QuadsDistinct(quads, n.id, edges, qs, i, j);
      if edges[i] == edges[j] { SameNormalSameQuad(n, e, f); }
    }
  }

  lemma QuadsDistinct(quads: set<Quad>, id: ID, edges: seq<EdgeRef>, qs: seq<Quad>, i: nat, j: nat)
    requires EdgesRead(quads, id, edges, qs) && i < |edges| && j < |edges| && i != j
    ensures |edges| == |qs| && qs[i] != qs[j]
  {
  }

  // ----- parents and branch origins -----

  /** No plain target of kind k looks like an edge IRI. */
  ghost predicate PlainTargets(n: Node, k: EdgeKind) {
    forall e :: e in n.edges && e.kind == k ==> !HasEdgePrefix(e.nodeID.text)
  }

  ghost predicate PlainParents(n: Node) {
    PlainTargets(n, PARENT)
  }

  ghost predicate PlainDeps(n: Node) {
    PlainTargets(n, PARENT) && PlainTargets(n, BRANCH_FROM)
  }

  ghost predicate Targets(edges: seq<EdgeRef>, k: EdgeKind, t: ID) {
    exists e :: e in edges && e.kind == k && e.nodeID == t
  }

  /** What the target of an edge that is not reified is read as; one that looks like an edge IRI is cut. */
  function ReadTarget(t: ID): Option<ID> {
    if !HasEdgePrefix(t.text) then Some(t)
    else if |SplitN(t.text, 4)| == 4 then Some(ID(SplitN(t.text, 4)[3]))
    else None
  }

  lemma {:induction false} PieceShorter(s: string, n: nat, i: nat)
    requires n > 0 && i < |SplitN(s, n)|
    ensures |SplitN(s, n)[i]| <= |s| && (|SplitN(s, n)| > 1 ==> |SplitN(s, n)[i]| < |s|)
  {
    var c := FirstColon(s);
    if n > 1 && c < |s| && i > 0 { PieceShorter(s[c + 1..], n - 1, i - 1); }
  }

  lemma ReadTargetShorter(t: ID)
    ensures var r := ReadTarget(t); HasEdgePrefix(t.text) && r.Some? ==> |r.value.text| < |t.text|
  {
    if HasEdgePrefix(t.text) && |SplitN(t.text, 4)| == 4 { PieceShorter(t.text, 4, 3); }
  }

  /** An edge of an unweighted kind is read as its cut target. */
  lemma PlainFromMain(quads: set<Quad>, n: Node, e: EdgeRef, e': EdgeRef)
    requires EdgeKindToPred(e.kind).Some? && !IsReified(e) && EdgeFrom(quads, MainQuad(n, e), e')
    ensures ReadTarget(e.nodeID) == Some(e'.nodeID)
    ensures !HasEdgePrefix(e.nodeID.text) ==> e'.weight == 0.0
  {
    hide SplitN, First;
    assert ValToStr(MainQuad(n, e).obj) == e.nodeID.text && ID(e.nodeID.text) == e.nodeID;
  }

  lemma PlainGarbled(n: Node, e: EdgeRef)
    requires EdgeKindToPred(e.kind).Some? && !IsReified(e)
    ensures Garbled(MainQuad(n, e).obj) <==> ReadTarget(e.nodeID).None?
  {
    hide SplitN;
    assert ValToStr(MainQuad(n, e).obj) == e.nodeID.text;
  }

  /** For every kind without weights, the targets read are exactly the cut targets of the edges of that kind. */
  lemma TargetsRead(quads: set<Quad>, n: Node, edges: seq<EdgeRef>, qs: seq<Quad>, k: EdgeKind, t: ID)
    requires Owns(quads, n) && EdgesRead(quads, n.id, edges, qs) && EdgeKindToPred(k).Some? && !IsWeightedEdge(k)
    ensures Targets(edges, k, t) <==> exists e :: e in n.edges && e.kind == k && ReadTarget(e.nodeID) == Some(t)
  {
    hide Owns, EdgeFrom, EdgesRead, MainQuad, Garbled, EdgeKindToPred, ReadTarget;
    if Targets(edges, k, t) {
      var e' :| e' in edges && e'.kind == k && e'.nodeID == t;
      var i :| 0 <= i < |edges| && edges[i] == e';
      var e := EdgeOrigin(quads, n, edges, qs, i);
      PlainFromMain(quads, n, e, edges[i]);
    }
    if e :| e in n.edges && e.kind == k && ReadTarget(e.nodeID) == Some(t) {
      PlainGarbled(n, e);
      var i := EdgePlace(quads, n, edges, qs, e);
      PlainFromMain(quads, n, e, edges[i]);
      EdgeKeepsKind(quads, n, e, edges[i]);
      assert edges[i] in edges;
    }
  }

  lemma EdgeKeepsKind(quads: set<Quad>, n: Node, e: EdgeRef, e': EdgeRef)
    requires EdgeKindToPred(e.kind).Some? && EdgeFrom(quads, MainQuad(n, e), e')
    ensures e'.kind == e.kind
  {
    EdgePredKnown(e.kind);
  }

  lemma {:induction false} LongestEdge(edges: seq<EdgeRef>, bad: EdgeRef -> bool) returns (e: EdgeRef)
    requires exists f :: f in edges && bad(f)
    ensures e in edges && bad(e) && forall f :: f in edges && bad(f) ==> |f.nodeID.text| <= |e.nodeID.text|
  {
    var m := |edges| - 1;
    assert edges == edges[..m] + [edges[m]];
    if exists f :: f in edges[..m] && bad(f) {
      e := LongestEdge(edges[..m], bad);
      if bad(edges[m]) && |edges[m].nodeID.text| > |e.nodeID.text| { e := edges[m]; }
    } else {
      e := edges[m];
    }
  }

  /** The targets of kind k in m are the cut targets in n. */
  ghost predicate CutTargets(edges: seq<EdgeRef>, edges': seq<EdgeRef>, k: EdgeKind) {
    forall t :: Targets(edges', k, t) <==> exists e :: e in edges && e.kind == k && ReadTarget(e.nodeID) == Some(t)
  }

  ghost predicate SameTargets(edges: seq<EdgeRef>, edges': seq<EdgeRef>, k: EdgeKind) {
    forall t :: Targets(edges', k, t) <==> Targets(edges, k, t)
  }

  /** Cutting keeps the targets of a kind, as a set, exactly when none of them looks like an edge IRI. */
  lemma CutKeepsTargetsIff(n: Node, edges': seq<EdgeRef>, k: EdgeKind)
    requires CutTargets(n.edges, edges', k)
    ensures SameTargets(n.edges, edges', k) <==> PlainTargets(n, k)
  {
    if PlainTargets(n, k) {
      forall t ensures Targets(edges', k, t) <==> Targets(n.edges, k, t) { CutPlain(n, k, t); }
    } else {
      var e := LongestEdge(n.edges, (f: EdgeRef) => f.kind == k && HasEdgePrefix(f.nodeID.text));
      assert Targets(n.edges, k, e.nodeID);
      forall f | f in n.edges && f.kind == k ensures ReadTarget(f.nodeID) != Some(e.nodeID) {
        ReadTargetShorter(f.nodeID);
      }
    }
  }

  lemma CutPlain(n: Node, k: EdgeKind, t: ID)
    requires PlainTargets(n, k)
    ensures (exists e :: e in n.edges && e.kind == k && ReadTarget(e.nodeID) == Some(t)) <==> Targets(n.edges, k, t)
  {
    if e :| e in n.edges && e.kind == k && e.nodeID == t { assert ReadTarget(e.nodeID) == Some(t); }
  }

  ghost predicate ParentsOnce(edges: seq<EdgeRef>) {
    forall i, j :: 0 <= i < j < |edges| && edges[i].kind == PARENT && edges[j].kind == PARENT ==>
      edges[i].nodeID != edges[j].nodeID
  }

  lemma {:induction false} ParentIDsDistinct(edges: seq<EdgeRef>)
    requires ParentsOnce(edges)
    ensures Distinct(ParentIDs(edges))
  {
    if edges != [] {
      var m := |edges| - 1;
      ParentIDsDistinct(edges[..m]);
      ParentIDsMembers(edges[..m], edges[m].nodeID);
    }
  }

  /** Parents that do not look like edge IRIs are read once each. */
  lemma ParentsReadOnce(quads: set<Quad>, n: Node, edges: seq<EdgeRef>, qs: seq<Quad>)
    requires Owns(quads, n) && EdgesRead(quads, n.id, edges, qs) && PlainParents(n)
    ensures Distinct(ParentIDs(edges))
  {
    hide Owns, EdgeFrom, EdgesRead;
    forall i, j | 0 <= i < j < |edges| && edges[i].kind == PARENT && edges[j].kind == PARENT
      ensures edges[i].nodeID != edges[j].nodeID
    {
      var e := EdgeOrigin(quads, n, edges, qs, i);
      var f := EdgeOrigin(quads, n, edges, qs, j);
      PlainFromMain(quads, n, e, edges[i]);
      PlainFromMain(quads, n, f, edges[j]);
      QuadsDistinct(quads, n.id, edges, qs, i, j);
    }
    ParentIDsDistinct(edges);
  }

  // ----- the whole node -----

  /** The first values under a node's subject. */
  function RawOf(n: Node): Raw {
    Raw(Some(IRI(n.sessionID)), Some(TimeText(n.timestamp)), Some(MessageText(n.message)),
        if n.kind != "" then Some(Text(n.kind)) else None,
        if n.archived then Some(Text("true")) else None,
        if NodeContent(n).NoContent? then None else Some(ContentText(NodeContent(n))))
  }

  /** The node as the store gives it back, edges aside. */
  function StoredForm(n: Node): Node {
    Assemble(n.id, RawOf(n), [])
  }

  lemma NonEdgeIsBase(n: Node, q: Quad)
    requires q in NodeQuads(n) && PredToEdgeKind(q.pred).None? && q.pred != PWeight
    ensures q in BaseQuads(n)
  {
    NodeQuadsAre(n, q);
    if exists e :: e in n.edges && q in EdgeQuads(n, e) {
      var e :| e in n.edges && q in EdgeQuads(n, e);
      EdgeQuadsAre(n, e, q);
      EdgePredKnown(e.kind);
    }
  }

  lemma BaseLabel(n: Node, q: Quad)
    requires q in BaseQuads(n)
    ensures q == Quad(n.id, q.pred, q.obj, n.sessionID)
  {
  }

  /** A quad under the node's subject with a non-edge predicate is the base quad of that predicate. */
  lemma BaseRead(quads: set<Quad>, n: Node, p: Pred, v: Option<Value>)
    requires Owns(quads, n) && PredToEdgeKind(p).None? && p != PWeight && First(quads, n.id, p, v)
    ensures v.Some? ==> Quad(n.id, p, v.value, n.sessionID) in BaseQuads(n)
    ensures v.None? ==> forall q :: q in BaseQuads(n) ==> q.pred != p
  {
    if v.Some? {
      var q :| q in Out(quads, n.id, p) && q.obj == v.value;
      NonEdgeIsBase(n, q);
      BaseLabel(n, q);
    } else {
      forall q | q in BaseQuads(n) ensures q.pred != p {
        NodeQuadsAre(n, q);
        BaseLabel(n, q);
        assert q.pred == p ==> q in Out(quads, n.id, p);
      }
    }
  }

  lemma BaseSession(n: Node, v: Option<Value>)
    requires v.Some? ==> Quad(n.id, PSession, v.value, n.sessionID) in BaseQuads(n)
    requires v.None? ==> forall q :: q in BaseQuads(n) ==> q.pred != PSession
    ensures v == RawOf(n).session
  {
    assert BaseQuads(n)[0].pred == PSession;
  }

  lemma BaseTimestamp(n: Node, v: Option<Value>)
    requires v.Some? ==> Quad(n.id, PTimestamp, v.value, n.sessionID) in BaseQuads(n)
    requires v.None? ==> forall q :: q in BaseQuads(n) ==> q.pred != PTimestamp
    ensures v == RawOf(n).timestamp
  {
    assert BaseQuads(n)[1].pred == PTimestamp;
  }

  lemma BaseMessage(n: Node, v: Option<Value>)
    requires v.Some? ==> Quad(n.id, PMessage, v.value, n.sessionID) in BaseQuads(n)
    requires v.None? ==> forall q :: q in BaseQuads(n) ==> q.pred != PMessage
    ensures v == RawOf(n).message
  {
    assert BaseQuads(n)[2].pred == PMessage;
  }

  lemma BaseKind(n: Node, v: Option<Value>)
    requires v.Some? ==> Quad(n.id, PNodeKind, v.value, n.sessionID) in BaseQuads(n)
    requires v.None? ==> forall q :: q in BaseQuads(n) ==> q.pred != PNodeKind
    ensures v == RawOf(n).kind
  {
    assert n.kind != "" ==> BaseQuads(n)[3].pred == PNodeKind;
  }

  lemma BaseArchived(n: Node, v: Option<Value>)
    requires v.Some? ==> Quad(n.id, PArchived, v.value, n.sessionID) in BaseQuads(n)
    requires v.None? ==> forall q :: q in BaseQuads(n) ==> q.pred != PArchived
    ensures v == RawOf(n).archived
  {
    assert n.archived ==> Quad(n.id, PArchived, Text("true"), n.sessionID) in BaseQuads(n);
  }

  lemma BaseContent(n: Node, v: Option<Value>)
    requires v.Some? ==> Quad(n.id, PContent, v.value, n.sessionID) in BaseQuads(n)
    requires v.None? ==> forall q :: q in BaseQuads(n) ==> q.pred != PContent
    ensures v == RawOf(n).content
  {
    assert !NodeContent(n).NoContent? ==>
      Quad(n.id, PContent, ContentText(NodeContent(n)), n.sessionID) in BaseQuads(n);
  }

  lemma RawIs(quads: set<Quad>, n: Node, raw: Raw)
    requires Owns(quads, n) && RawRead(quads, n.id, raw)
    ensures raw == RawOf(n)
  {
    hide Owns, First, BaseQuads, NodeContent;
    BaseRead(quads, n, PSession, raw.session);
    BaseRead(quads, n, PTimestamp, raw.timestamp);
    BaseRead(quads, n, PMessage, raw.message);
    BaseRead(quads, n, PNodeKind, raw.kind);
    BaseRead(quads, n, PArchived, raw.archived);
    BaseRead(quads, n, PContent, raw.content);
    BaseSession(n, raw.session);
    BaseTimestamp(n, raw.timestamp);
    BaseMessage(n, raw.message);
    BaseKind(n, raw.kind);
    BaseArchived(n, raw.archived);
    BaseContent(n, raw.content);
  }

  /**
   m is what a read of n can give: always the same fields but edges, and the cut parents and branch origins; the parents
   once each when they are plain, and all edges when they are clean.
   */
  ghost predicate ReadAs(n: Node, m: Node) {
    && m.(edges := []) == StoredForm(n)
    && CutTargets(n.edges, m.edges, PARENT) && CutTargets(n.edges, m.edges, BRANCH_FROM)
    && (PlainParents(n) ==> Distinct(m.Parents()))
    && (CleanEdges(n) ==> NormalEdges(n, m.edges))
  }

  lemma AssembleEdges(id: ID, raw: Raw, edges: seq<EdgeRef>)
    ensures Assemble(id, raw, edges).edges == edges
    ensures Assemble(id, raw, edges).(edges := []) == Assemble(id, raw, [])
  {
  }

  /** Reading a node back, whatever its edges and whatever order the reads come in. */
  lemma NodeRoundTrip(quads: set<Quad>, n: Node, m: Node)
    requires Owns(quads, n) && NodeRead(quads, n.id, m)
    ensures ReadAs(n, m)
  {
    hide Owns, RawRead, EdgesRead, Targets, PlainTargets, CleanEdges, NormalEdges, ReadTarget;
    var raw, edges, qs :| RawRead(quads, n.id, raw) && EdgesRead(quads, n.id, edges, qs)
      && m == Assemble(n.id, raw, edges);
    RawIs(quads, n, raw);
    AssembleEdges(n.id, raw, edges);
    forall k, t | k == PARENT || k == BRANCH_FROM
      ensures Targets(edges, k, t) <==> exists e :: e in n.edges && e.kind == k && ReadTarget(e.nodeID) == Some(t)
    {
      TargetsRead(quads, n, edges, qs, k, t);
    }
    if CleanEdges(n) { EdgeRoundTrip(quads, n, edges, qs); }
    if PlainParents(n) { ParentsReadOnce(quads, n, edges, qs); }
  }

  /** The parents of a stored node come back, as a set, exactly when none of them looks like an edge IRI. */
  lemma ParentsReadBackIff(quads: set<Quad>, n: Node, m: Node)
    requires Owns(quads, n) && NodeRead(quads, n.id, m)
    ensures (forall p :: p in m.Parents() <==> p in n.Parents()) <==> PlainParents(n)
  {
    hide Owns, NodeRead;
    NodeRoundTrip(quads, n, m);
    CutKeepsTargetsIff(n, m.edges, PARENT);
    forall p ensures (p in m.Parents() <==> Targets(m.edges, PARENT, p))
      && (p in n.Parents() <==> Targets(n.edges, PARENT, p)) {
      ParentIDsMembers(m.edges, p);
      ParentIDsMembers(n.edges, p);
    }
  }

  ghost predicate AtMostOneContent(n: Node) {
    (if n.memory.Some? then 1 else 0) + (if n.skill.Some? then 1 else 0)
    + (if n.identity.Some? then 1 else 0) + (if n.sleep.Some? then 1 else 0) <= 1
  }

  /** The content is the one the node's kind is decoded with. */
  ghost predicate ContentFitsKind(n: Node) {
    match NodeContent(n)
    case NoContent => true
    case MemoryC(_) => n.EffectiveKind() == KIND_MEMORY
    case SkillC(_) => n.EffectiveKind() == KIND_SKILL
    case IdentityC(_) => n.EffectiveKind() == KIND_IDENTITY
    case SleepC(_) => n.EffectiveKind() == KIND_SLEEP
  }

  /** Apart from its edges a node survives the store exactly when its only content fits its kind. */
  lemma StoredFormIsNode(n: Node)
    ensures StoredForm(n) == n.(edges := []) <==> AtMostOneContent(n) && ContentFitsKind(n)
  {
  }

  /**
   Whatever contents a node has: its kind decides which one is read back, from the text of the one that was stored; a
   text written for another kind reads as an empty content, and nothing is read back for kinds without content.
   */
  lemma StoredContent(n: Node)
    ensures var m, some := StoredForm(n), n.memory.Some? || n.skill.Some? || n.identity.Some? || n.sleep.Some?;
      && m == Node(n.id, n.sessionID, n.timestamp, n.message, n.kind, [], n.archived, m.memory, m.skill, m.identity,
        m.sleep)
      && m.memory == (if n.kind != "memory" || !some then None
                      else if n.memory.Some? then n.memory else Some(MemoryContent("", [], 0.0)))
      && m.skill == (if n.kind != "skill" || !some then None
                     else if n.memory.None? && n.skill.Some? then n.skill else Some(SkillContent("", "", "")))
      && m.identity == (if n.kind != "identity" || !some then None
                        else if n.memory.None? && n.skill.None? && n.identity.Some? then n.identity
                        else Some(IdentityContent([], [], [])))
      && m.sleep == (if n.kind != "sleep" || !some then None
                     else if n.memory.None? && n.skill.None? && n.identity.None? then n.sleep
                     else Some(SleepContent("")))
  {
  }
}
