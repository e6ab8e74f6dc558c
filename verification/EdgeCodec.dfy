/** Exactly which nodes get all their edges back. */
module EdgeCodec {
  import opened Types
  import opened Quads
  import opened CayleyStore
  import opened NodeCodec
  import opened Readings

  /** Every read from every store that holds n gives its edges in normal form, each once. */
  ghost predicate EdgesSurvive(n: Node) {
    forall quads, edges, qs {:trigger EdgesRead(quads, n.id, edges, qs)} ::
      Owns(quads, n) && EdgesRead(quads, n.id, edges, qs) ==> NormalEdges(n, edges)
  }

  /** The store that holds n and nothing else. */
  ghost function Alone(n: Node): set<Quad> {
    QuadSet(NodeQuads(n))
  }

  lemma AloneOwns(n: Node)
    ensures Owns(Alone(n), n)
  {
  }

  lemma AloneRead(n: Node) returns (edges: seq<EdgeRef>, qs: seq<Quad>)
    ensures EdgesRead(Alone(n), n.id, edges, qs)
  {
    qs := GroupedListing(EdgeSet(Alone(n), n.id));
    edges := EdgesExist(Alone(n), n.id, qs);
  }

  /** Alone, the only weights are those of n's reified edges. */
  lemma AloneWeights(n: Node, x: ID, w: Option<Value>)
    requires First(Alone(n), x, PWeight, w) && w.Some?
    ensures ParseWeight(w) != 0.0
  {
    hide AllEdgeQuads;
    var q :| q in Out(Alone(n), x, PWeight) && q.obj == w.value;
    NodeQuadsAre(n, q);
    if q in BaseQuads(n) { EdgePredNotBase(n, q); }
    var f :| f in n.edges && q in EdgeQuads(n, f);
    EdgeQuadsAre(n, f, q);
    if EdgeKindToPred(f.kind).Some? { EdgePredKnown(f.kind); }
  }

  /** Alone, a reified edge is not read as one without weight. */
  lemma ReifiedKeepsWeight(n: Node, f: EdgeRef, e': EdgeRef)
    requires f in n.edges && IsReified(f) && EdgeKindToPred(f.kind).Some? && EdgeFrom(Alone(n), MainQuad(n, f), e')
    ensures e'.weight != 0.0
  {
    hide SplitN, First, AllEdgeQuads;
    var iri := EdgeIRI(n.id, f.kind, f.nodeID);
    EdgeIRIHasPrefix(n.id, f.kind, f.nodeID);
    assert ValToStr(MainQuad(n, f).obj) == iri.text && ID(iri.text) == iri;
    var w :| First(Alone(n), iri, PWeight, w) && e'.weight == ParseWeight(w);
    EdgeQuadIn(n, f);
    FirstNone(Alone(n), iri, PWeight, w);
    assert WeightQuad(n, f) in Out(Alone(n), iri, PWeight);
    AloneWeights(n, iri, w);
  }

  // ----- under a node ID with a colon, reified targets only grow -----

  lemma {:induction false} SplitTail(a: string, b: string, n: nat)
    requires !ColonFree(a) && n > 1
    ensures exists c, d :: ColonFree(c) && a == Join(c, d) && SplitN(Join(a, b), n) == [c] + SplitN(Join(d, b), n - 1)
  {
    var i := FirstColon(a);
    var k :| 0 <= k < |a| && a[k] == ':';
    var c, d := a[..i], a[i + 1..];
    assert a == Join(c, d);
    assert Join(a, b) == Join(c, Join(d, b));
    assert ColonFree(c) by { forall x | x in c ensures x != ':' { var y :| 0 <= y < i && a[y] == x; } }
    SplitJoin(c, Join(d, b), n);
  }

  lemma LastPieceGrows(a: string, b: string)
    ensures |SplitN(Join(a, b), 2)| == 2 && |SplitN(Join(a, b), 2)[1]| >= |b|
  {
    if ColonFree(a) {
      SplitJoin(a, b, 2);
      SplitOne(b);
    } else {
      SplitTail(a, b, 2);
      var c, d :| ColonFree(c) && a == Join(c, d) && SplitN(Join(a, b), 2) == [c] + SplitN(Join(d, b), 1);
      SplitOne(Join(d, b));
    }
  }

  /** Under a node ID with a colon, a reified edge is read with a longer target. */
  lemma TargetGrows(n: ID, k: EdgeKind, t: ID)
    requires !ColonFree(n.text)
    ensures var pieces := SplitN(EdgeIRI(n, k, t).text, 4); |pieces| == 4 && |pieces[3]| > |t.text|
  {
    hide SplitN, ColonFree;
    var tail := Join(k.name, t.text);
    EdgeColonFree();
    SplitJoin("edge", Join(n.text, tail), 4);
    SplitTail(n.text, tail, 3);
    var c, d :| ColonFree(c) && n.text == Join(c, d) && SplitN(Join(n.text, tail), 3) == [c] + SplitN(Join(d, tail), 2);
    LastPieceGrows(d, tail);
  }

  lemma ReifiedGrows(n: Node, f: EdgeRef, e': EdgeRef)
    requires !ColonFree(n.id.text) && IsReified(f) && EdgeKindToPred(f.kind).Some?
    requires EdgeFrom(Alone(n), MainQuad(n, f), e')
    ensures |e'.nodeID.text| > |f.nodeID.text|
  {
    hide SplitN, First, ColonFree, AllEdgeQuads;
    var iri := EdgeIRI(n.id, f.kind, f.nodeID);
    EdgeIRIHasPrefix(n.id, f.kind, f.nodeID);
    TargetGrows(n.id, f.kind, f.nodeID);
    assert ValToStr(MainQuad(n, f).obj) == iri.text;
  }

  // ----- each condition is needed -----

  /** The edge behind a normal form that was read. */
  lemma Behind(n: Node, edges: seq<EdgeRef>, qs: seq<Quad>, e: EdgeRef) returns (f: EdgeRef, i: nat)
    requires EdgesRead(Alone(n), n.id, edges, qs) && NormalEdges(n, edges) && e in n.edges
    ensures f in n.edges && EdgeKindToPred(f.kind).Some? && f.kind == e.kind
    ensures i < |edges| == |qs| && edges[i] == Normal(e) && qs[i] == MainQuad(n, f)
      && EdgeFrom(Alone(n), MainQuad(n, f), Normal(e))
  {
    hide EdgesRead, MainQuad, EdgeFrom, Alone;
    AloneOwns(n);
    assert Normal(e) in edges;
    i :| 0 <= i < |edges| && edges[i] == Normal(e);
    f := EdgeOrigin(Alone(n), n, edges, qs, i);
    AsManyQuads(n, edges, qs);
  }

  lemma AsManyQuads(n: Node, edges: seq<EdgeRef>, qs: seq<Quad>)
    requires EdgesRead(Alone(n), n.id, edges, qs)
    ensures |edges| == |qs|
  {
  }

  lemma KindsKnown(n: Node, edges: seq<EdgeRef>, qs: seq<Quad>)
    requires EdgesRead(Alone(n), n.id, edges, qs) && NormalEdges(n, edges)
    ensures forall e :: e in n.edges ==> EdgeKindToPred(e.kind).Some?
  {
    hide EdgesRead, NormalEdges;
    forall e | e in n.edges ensures EdgeKindToPred(e.kind).Some? { var f, i := Behind(n, edges, qs, e); }
  }

  /** Of plain targets that look like edge IRIs, the longest is lost. */
  lemma PlainTargetsPlain(n: Node, edges: seq<EdgeRef>, qs: seq<Quad>)
    requires EdgesRead(Alone(n), n.id, edges, qs) && NormalEdges(n, edges)
    ensures forall e :: e in n.edges && !IsReified(e) ==> !HasEdgePrefix(e.nodeID.text)
  {
    hide EdgesRead, NormalEdges, SplitN;
    if exists e :: e in n.edges && !IsReified(e) && HasEdgePrefix(e.nodeID.text) {
      var e := LongestEdge(n.edges, (f: EdgeRef) => !IsReified(f) && HasEdgePrefix(f.nodeID.text));
      var f, i := Behind(n, edges, qs, e);
      if IsReified(f) {
        ReifiedKeepsWeight(n, f, Normal(e));
      } else {
        PlainFromMain(Alone(n), n, f, Normal(e));
        ReadTargetShorter(f.nodeID);
      }
    }
  }

  lemma {:induction false} ShortestEdge(edges: seq<EdgeRef>, bad: EdgeRef -> bool) returns (e: EdgeRef)
    requires exists f :: f in edges && bad(f)
    ensures e in edges && bad(e) && forall f :: f in edges && bad(f) ==> |e.nodeID.text| <= |f.nodeID.text|
  {
    var m := |edges| - 1;
    assert edges == edges[..m] + [edges[m]];
    if exists f :: f in edges[..m] && bad(f) {
      e := ShortestEdge(edges[..m], bad);
      if bad(edges[m]) && |edges[m].nodeID.text| < |e.nodeID.text| { e := edges[m]; }
    } else {
      e := edges[m];
    }
  }

  /** Under a node ID with a colon, the reified edge with the shortest target is lost. */
  lemma ColonFreeIfReified(n: Node, edges: seq<EdgeRef>, qs: seq<Quad>)
    requires EdgesRead(Alone(n), n.id, edges, qs) && NormalEdges(n, edges)
    ensures forall e :: e in n.edges && IsReified(e) ==> ColonFree(n.id.text)
  {
    hide EdgesRead, NormalEdges, SplitN, ColonFree;
    if !ColonFree(n.id.text) && exists e :: e in n.edges && IsReified(e) {
      var e := ShortestEdge(n.edges, (f: EdgeRef) => IsReified(f));
      var f, i := Behind(n, edges, qs, e);
      if IsReified(f) {
        ReifiedGrows(n, f, Normal(e));
      } else {
        PlainTargetsPlain(n, edges, qs);
        PlainFromMain(Alone(n), n, f, Normal(e));
      }
    }
  }

  /** With plain targets and a colon-free ID, a reified edge comes from the main quad of that kind and target. */
  lemma ReifiedBehind(n: Node, f: EdgeRef, e: EdgeRef)
    requires IsReified(e) && EdgeKindToPred(f.kind).Some? && ColonFree(n.id.text) && f.kind == e.kind
    requires !IsReified(f) ==> !HasEdgePrefix(f.nodeID.text)
    requires EdgeFrom(Alone(n), MainQuad(n, f), Normal(e))
    ensures IsReified(f) && f.nodeID == e.nodeID
  {
    hide SplitN, First, ColonFree, AllEdgeQuads;
    if IsReified(f) {
      EdgeIRIHasPrefix(n.id, f.kind, f.nodeID);
      EdgeIRISplits(n.id, f.kind, f.nodeID);
      assert ValToStr(MainQuad(n, f).obj) == EdgeIRI(n.id, f.kind, f.nodeID).text;
    } else {
      PlainFromMain(Alone(n), n, f, Normal(e));
    }
  }

  lemma OneWeightEach(n: Node, edges: seq<EdgeRef>, qs: seq<Quad>, e: EdgeRef, f: EdgeRef)
    requires EdgesRead(Alone(n), n.id, edges, qs) && NormalEdges(n, edges)
    requires e in n.edges && f in n.edges && IsReified(e) && IsReified(f) && e.kind == f.kind && e.nodeID == f.nodeID
    ensures e.weight == f.weight
  {
    hide EdgesRead, NormalEdges, EdgeFrom, ColonFree, HasEdgePrefix, Alone;
    ColonFreeIfReified(n, edges, qs);
    PlainTargetsPlain(n, edges, qs);
    var a, i := Behind(n, edges, qs, e);
    var b, j := Behind(n, edges, qs, f);
    ReifiedBehind(n, a, e);
    ReifiedBehind(n, b, f);
    assert MainQuad(n, a) == MainQuad(n, b);
    if i != j { QuadsDistinct(Alone(n), n.id, edges, qs, i, j); }
  }

  /** Edge round trip, exactly: a node gets its edges back from every store that holds it iff they are clean. */
  lemma EdgesSurviveIff(n: Node)
    ensures EdgesSurvive(n) <==> CleanEdges(n)
  {
    hide EdgesRead, Owns, NormalEdges, Alone, ColonFree, HasEdgePrefix;
    if CleanEdges(n) {
      forall quads, edges, qs | Owns(quads, n) && EdgesRead(quads, n.id, edges, qs) ensures NormalEdges(n, edges) {
        EdgeRoundTrip(quads, n, edges, qs);
      }
    }
    if EdgesSurvive(n) {
      AloneOwns(n);
      var edges, qs := AloneRead(n);
      KindsKnown(n, edges, qs);
      PlainTargetsPlain(n, edges, qs);
      ColonFreeIfReified(n, edges, qs);
      forall e, f | e in n.edges && f in n.edges && IsReified(e) && IsReified(f) && e.kind == f.kind
        && e.nodeID == f.nodeID
        ensures e.weight == f.weight
      {
        OneWeightEach(n, edges, qs, e, f);
      }
    }
  }
}
