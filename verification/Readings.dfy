/** Which reads are possible: every order of a node's edge quads is one that keeps them kind by kind. */
module Readings {
  import opened Types
  import opened Quads
  import opened CayleyStore
  import opened NodeCodec

  lemma {:induction false} FirstInRank(S: set<Quad>) returns (q: Quad)
    requires S != {}
    ensures q in S && forall p :: p in S ==> EdgeRank(q.pred) <= EdgeRank(p.pred)
  {
    q :| q in S;
    if S != {q} {
      var p := FirstInRank(S - {q});
      assert forall x :: x in S ==> x == q || x in S - {q};
      if EdgeRank(p.pred) < EdgeRank(q.pred) { q := p; }
    }
  }

  lemma {:induction false} GroupedListing(S: set<Quad>) returns (qs: seq<Quad>)
    ensures Lists(qs, S) && Grouped(qs)
  {
    qs := [];
    if S != {} {
      var q := FirstInRank(S);
      var rest := GroupedListing(S - {q});
      ListingGrows(S - {q}, q, rest);
      assert S - {q} + {q} == S;
      qs := [q] + rest;
    }
  }

  lemma ListingGrows(S: set<Quad>, q: Quad, rest: seq<Quad>)
    requires q !in S && Lists(rest, S) && Grouped(rest) && forall p :: p in S ==> EdgeRank(q.pred) <= EdgeRank(p.pred)
    ensures Lists([q] + rest, S + {q}) && Grouped([q] + rest)
  {
    var qs := [q] + rest;
    assert forall i :: 0 < i < |qs| ==> qs[i] in rest;
    assert forall x :: x in qs <==> x == q || x in rest;
  }

  /** Any quad of the first kind can come first. */
  lemma ListingFrom(S: set<Quad>, q: Quad) returns (qs: seq<Quad>)
    requires q in S && EdgeRank(q.pred) == 0
    ensures Lists(qs, S) && Grouped(qs) && qs != [] && qs[0] == q
  {
    var rest := GroupedListing(S - {q});
    ListingGrows(S - {q}, q, rest);
    assert S - {q} + {q} == S;
    qs := [q] + rest;
  }

  lemma EdgeExists(quads: set<Quad>, id: ID, q: Quad) returns (e: EdgeRef)
    requires q in EdgeSet(quads, id)
    ensures EdgeFrom(quads, q, e)
  {
    hide SplitN, First;
    var raw, kind := ValToStr(q.obj), PredToEdgeKind(q.pred).value;
    if HasEdgePrefix(raw) {
      var w := FirstExists(quads, ID(raw), PWeight);
      e := EdgeRef(kind, ID(SplitN(raw, 4)[3]), ParseWeight(w));
    } else {
      e := EdgeRef(kind, ID(raw), 0.0);
    }
  }

  lemma {:induction false} EdgesExist(quads: set<Quad>, id: ID, qs: seq<Quad>) returns (edges: seq<EdgeRef>)
    requires forall q :: q in qs ==> q in EdgeSet(quads, id)
    ensures |edges| == |qs| && forall i :: 0 <= i < |qs| ==> EdgeFrom(quads, qs[i], edges[i])
  {
    hide EdgeFrom, EdgeSet;
    edges := [];
    if qs != [] {
      var m := |qs| - 1;
      var before := EdgesExist(quads, id, qs[..m]);
      var e := EdgeExists(quads, id, qs[m]);
      edges := before + [e];
    }
  }

  lemma RawExists(quads: set<Quad>, id: ID) returns (raw: Raw)
    ensures RawRead(quads, id, raw)
  {
    hide First;
    var session := FirstExists(quads, id, PSession);
    var timestamp := FirstExists(quads, id, PTimestamp);
    var message := FirstExists(quads, id, PMessage);
    var kind := FirstExists(quads, id, PNodeKind);
    var archived := FirstExists(quads, id, PArchived);
    var content := FirstExists(quads, id, PContent);
    raw := Raw(session, timestamp, message, kind, archived, content);
  }

  /** Any grouped listing of the edge quads gives a possible read with the edges in that order. */
  lemma ReadInOrder(quads: set<Quad>, id: ID, qs: seq<Quad>) returns (m: Node)
    requires Out(quads, id, PSession) != {} && Lists(qs, EdgeSet(quads, id)) && Grouped(qs)
    ensures NodeRead(quads, id, m)
      && |m.edges| == |qs| && forall i :: 0 <= i < |qs| ==> EdgeFrom(quads, qs[i], m.edges[i])
  {
    hide EdgeFrom, RawRead, EdgeSet;
    var raw := RawExists(quads, id);
    var edges := EdgesExist(quads, id, qs);
    m := Assemble(id, raw, edges);
    AssembleEdges(id, raw, edges);
    IsNodeRead(quads, id, raw, edges, qs, m);
  }
}
