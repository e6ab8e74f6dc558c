/** Small graphs grown call by call and written through, for what the store does not keep. */
module StoredSamples {
  import opened Types
  import opened GraphState
  import opened GraphInvariant
  import opened GraphTheorems
  import opened Lineage
  import opened Quads
  import opened CayleyStore
  import opened NodeCodec
  import opened StoreLoad
  import opened WriteThrough
  import opened StoreTheorems
  import opened LineageChoice
  import opened Samples

  ghost predicate Under(quads: set<Quad>, subjects: set<ID>) {
    forall q :: q in quads ==> q.subj in subjects
  }

  /** The store is a copy of the growing graph, with quads under these subjects only. */
  ghost predicate Copied(quads: set<Quad>, g: State, subjects: set<ID>) {
    Growing(g) && Mirrors(quads, g) && Under(quads, subjects)
  }

  /** No subject is the ID, or an edge IRI made from it. */
  ghost predicate NewSubject(id: ID, subjects: set<ID>) {
    id != NO_ID && id !in subjects && forall k, t :: EdgeIRI(id, k, t) !in subjects
  }

  lemma CopyStart() returns (quads: set<Quad>, g: State)
    ensures Copied(quads, g, {ID("s"), GLOBAL_SESSIONS}) && g.nodes == map[]
  {
    hide Reachable, Mirrors;
    var g0 := NewGraph(ID("s"), None, DEFAULT_NAMES);
    NewGraphReachable(ID("s"), None, DEFAULT_NAMES);
    assert ID("s").text[0] == 's' && |ID("s").text| == 1 && |GLOBAL_SESSIONS.text| > 1;
    WriteThroughStep({}, g0, StartOp(0));
    ReachableStep(g0, StartOp(0));
    g := Start(g0, 0).0;
    quads := AfterCreate({}, g.session);
  }

  lemma SampleSubjects(n: Node, q: Quad)
    requires (forall e :: e in n.edges ==> !IsReified(e)) && q in NodeQuads(n)
    ensures q.subj == n.id
  {
    NodeQuadsAre(n, q);
    if q in BaseQuads(n) {
      EdgePredNotBase(n, q);
    } else {
      var e :| e in n.edges && q in EdgeQuads(n, e);
      EdgeQuadsAre(n, e, q);
    }
  }

  lemma WriteUnder(quads: set<Quad>, n: Node, subjects: set<ID>)
    requires Under(quads, subjects) && n.sessionID in subjects && forall e :: e in n.edges ==> !IsReified(e)
    ensures Under(AfterWrite(quads, n), subjects + {n.id})
  {
    forall q | q in AfterWrite(quads, n) ensures q.subj in subjects + {n.id} {
      if q in NodeQuads(n) { SampleSubjects(n, q); }
    }
  }

  lemma CopyGrow(quads: set<Quad>, g: State, subjects: set<ID>, id: ID, parents: seq<ID>, now: Time)
    returns (quads': set<Quad>, g': State)
    requires Copied(quads, g, subjects) && ID("s") in subjects && NewSubject(id, subjects) && Fresh(g, id)
    requires AppendCheck(g, HELLO, parents) == Ok(parents)
    ensures Copied(quads', g', subjects + {id})
    ensures g'.nodes == g.nodes[id := Sample(id, parents, now)] && g'.headID == id
  {
    hide Reachable, Mirrors, Fresh, AddNode, AppendCheck, Step, AfterWrite;
    var n, op := Sample(id, parents, now), AppendOp(HELLO, parents, id, now);
    GrowStep(g, id, parents, now);
    Grow(g, id, parents, now);
    WriteThroughStep(quads, g, op);
    WriteUnder(quads, n, subjects);
    g', quads' := AddNode(g, n), AfterWrite(quads, n);
  }

  /** The nodes are samples whose parents are among these IDs. */
  ghost predicate SamplesBelow(nodes: map<ID, Node>, others: set<ID>) {
    forall x :: x in nodes ==> forall e :: e in nodes[x].edges ==> e.nodeID in others
  }

  lemma FreshAmongSamples(g: State, id: ID, others: set<ID>)
    requires id != NO_ID && id !in g.nodes && id !in others && SamplesBelow(g.nodes, others)
    ensures Fresh(g, id)
  {
  }

  lemma OneMoreSample(nodes: map<ID, Node>, others: set<ID>, id: ID, parents: seq<ID>, now: Time, others': set<ID>)
    requires SamplesBelow(nodes, others) && others <= others' && forall p :: p in parents ==> p in others'
    ensures SamplesBelow(nodes[id := Sample(id, parents, now)], others')
  {
  }

  // ----- two parents -----

  lemma PlainSubjects(id: ID, subjects: set<ID>)
    requires id != NO_ID && id !in subjects && forall x :: x in subjects ==> !HasEdgePrefix(x.text)
    ensures NewSubject(id, subjects)
  {
    forall k, t ensures EdgeIRI(id, k, t) !in subjects { EdgeIRIHasPrefix(id, k, t); }
  }

  lemma NoPrefixes()
    ensures forall x :: x in {ID("s"), GLOBAL_SESSIONS, R, A, B, C} ==> !HasEdgePrefix(x.text)
    ensures R !in {ID("s"), GLOBAL_SESSIONS} && A !in {ID("s"), GLOBAL_SESSIONS, R}
    ensures B !in {ID("s"), GLOBAL_SESSIONS, R, A}
    ensures C !in {ID("s"), GLOBAL_SESSIONS, R, A, B}
  {
    assert GLOBAL_SESSIONS.text[0] == 's' && |GLOBAL_SESSIONS.text| > 1 && EDGE_PREFIX[0] == 'e';
    assert ID("s").text[0] == 's';
    assert A.text[0] == 'a' && B.text[0] == 'b' && C.text[0] == 'c' && R.text[0] == 'r';
  }

  /** A root, two nodes below it, and a fourth below both. */
  lemma Diamond() returns (quads: set<Quad>, g: State)
    ensures Reachable(g) && Mirrors(quads, g) && PlainTable(g.nodes)
    ensures C in g.nodes && g.nodes[C].Parents() == [A, B]
  {
    hide Reachable, Mirrors, Under, NewSubject, Growing, Fresh, AppendCheck, SamplesBelow, HasEdgePrefix;
    SampleIDs();
    NoPrefixes();
    var quads0, g0 := CopyStart();
    NothingBelow();
    var s0 := {ID("s"), GLOBAL_SESSIONS};
    PlainSubjects(R, s0);
    FreshAmongSamples(g0, R, {});
    GrowingChecks(g0, []);
    var quads1, g1 := CopyGrow(quads0, g0, s0, R, [], 1);
    OneMoreSample(g0.nodes, {}, R, [], 1, {});
    PlainSubjects(A, s0 + {R});
    FreshAmongSamples(g1, A, {});
    GrowingChecks(g1, [R]);
    var quads2, g2 := CopyGrow(quads1, g1, s0 + {R}, A, [R], 2);
    OneMoreSample(g1.nodes, {}, A, [R], 2, {R});
    PlainSubjects(B, s0 + {R} + {A});
    FreshAmongSamples(g2, B, {R});
    GrowingChecks(g2, [R]);
    var quads3, g3 := CopyGrow(quads2, g2, s0 + {R} + {A}, B, [R], 3);
    OneMoreSample(g2.nodes, {R}, B, [R], 3, {R});
    PlainSubjects(C, s0 + {R} + {A} + {B});
    FreshAmongSamples(g3, C, {R});
    GrowChecksTwo(g3, A, B);
    quads, g := CopyGrow(quads3, g3, s0 + {R} + {A} + {B}, C, [A, B], 4);
    OneMoreSample(g3.nodes, {R}, C, [A, B], 4, {R, A, B});
    ParentIDsOfParentEdges([A, B]);
    CopiedIs(quads, g, s0 + {R} + {A} + {B} + {C});
    PlainBelow(g.nodes, {R, A, B});
  }

  lemma NothingBelow()
    ensures SamplesBelow(map[], {})
  {
  }

  lemma CopiedIs(quads: set<Quad>, g: State, subjects: set<ID>)
    requires Copied(quads, g, subjects)
    ensures Reachable(g) && Mirrors(quads, g)
  {
  }

  lemma GrowingChecks(g: State, parents: seq<ID>)
    requires Growing(g) && |parents| <= 1 && (parents == [] <==> g.nodes == map[])
    requires parents != [] ==> parents[0] in g.nodes && parents[0] != NO_ID
    ensures AppendCheck(g, HELLO, parents) == Ok(parents)
  {
    GrowChecks(g, parents);
  }

  lemma PlainBelow(nodes: map<ID, Node>, others: set<ID>)
    requires SamplesBelow(nodes, others) && forall x :: x in others ==> !HasEdgePrefix(x.text)
    ensures PlainTable(nodes)
  {
  }

  /** A reachable graph, written through, for which the store may give a lineage other than the canonical one. */
  lemma LineageDiverts() returns (quads: set<Quad>, g: State, l: seq<Node>, l': seq<Node>)
    ensures Reachable(g) && Mirrors(quads, g) && PlainTable(g.nodes)
    ensures IsLineage(g.nodes, C, l) && StoreLineage(quads, C, l') && !AsRead(l, l')
  {
    hide Reachable, Mirrors, PlainTable, StoreLineage, AsRead;
    quads, g := Diamond();
    l := ReachableLineage(g, C);
    ReachableParents(g, C);
    LineageLast(g.nodes, C, l);
    l' := SecondParentDiverts(quads, g, C, l, |l| - 1);
  }

  lemma LineageLast(nodes: map<ID, Node>, id: ID, l: seq<Node>)
    requires IsLineage(nodes, id, l)
    ensures l != [] && id in nodes && l[|l| - 1] == nodes[id]
  {
  }

  // ----- a parent that looks like an edge IRI -----

  const ROOT := ID("edge:r")

  lemma RootIsCut()
    ensures HasEdgePrefix(ROOT.text) && ReadTarget(ROOT).None?
  {
    EdgeColonFree();
    assert ROOT.text == Join("edge", "r");
    SplitJoin("edge", "r", 4);
    assert FirstColon("r") == 1;
  }

  lemma RootIsNew(subjects: set<ID>)
    requires subjects == {ID("s"), GLOBAL_SESSIONS}
    ensures NewSubject(ROOT, subjects) && NewSubject(A, subjects + {ROOT})
  {
    hide HasEdgePrefix, ReadTarget;
    NoPrefixes();
    RootIsCut();
    forall k, t ensures EdgeIRI(ROOT, k, t) !in subjects && EdgeIRI(A, k, t) !in subjects + {ROOT} {
      EdgeIRIHasPrefix(ROOT, k, t);
      EdgeIRIHasPrefix(A, k, t);
      assert EdgeIRI(A, k, t).text[5] == 'a' && ROOT.text[5] == 'r';
    }
    assert ROOT.text[0] == 'e' && A.text[0] == 'a';
  }

  /** A reachable graph, written through, whose second node comes back from the store without its parent. */
  lemma ParentIsLost() returns (quads: set<Quad>, g: State)
    ensures Reachable(g) && Mirrors(quads, g) && A in g.nodes && g.nodes[A].Parents() == [ROOT]
    ensures forall m :: NodeRead(quads, A, m) ==> m.Parents() == []
    ensures forall l :: StoreLineage(quads, A, l) ==> |l| == 1
  {
    hide Reachable, Mirrors, Under, NewSubject, Growing, Fresh, AppendCheck, SamplesBelow, NodeRead;
    SampleIDs();
    var quads0, g0 := CopyStart();
    var s0 := {ID("s"), GLOBAL_SESSIONS};
    RootIsNew(s0);
    NothingBelow();
    FreshAmongSamples(g0, ROOT, {});
    GrowingChecks(g0, []);
    var quads1, g1 := CopyGrow(quads0, g0, s0, ROOT, [], 1);
    OneMoreSample(g0.nodes, {}, ROOT, [], 1, {});
    assert A != ROOT by { assert A.text[0] == 'a' && ROOT.text[0] == 'e'; }
    FreshAmongSamples(g1, A, {});
    GrowingChecks(g1, [ROOT]);
    quads, g := CopyGrow(quads1, g1, s0 + {ROOT}, A, [ROOT], 2);
    CopiedIs(quads, g, s0 + {ROOT} + {A});
    ParentIDsOfParentEdges([ROOT]);
    forall m | NodeRead(quads, A, m) ensures m.Parents() == [] {
      MirroredNode(quads, g, A, m);
      CutParentLost(g.nodes[A], m);
    }
    forall l | StoreLineage(quads, A, l) ensures |l| == 1 { LastRead(quads, A, l); }
  }

  lemma CutParentLost(n: Node, m: Node)
    requires ReadAs(n, m) && n.Parents() == [ROOT]
    ensures m.Parents() == []
  {
    hide ReadTarget;
    RootIsCut();
    if m.Parents() != [] {
      var p := m.Parents()[0];
      ParentIDsMembers(m.edges, p);
      assert Targets(m.edges, PARENT, p);
      var e :| e in n.edges && e.kind == PARENT && ReadTarget(e.nodeID) == Some(p);
      ParentIDsMembers(n.edges, e.nodeID);
    }
  }

  lemma LastRead(quads: set<Quad>, id: ID, l: seq<Node>)
    requires StoreLineage(quads, id, l)
    ensures l != [] && NodeRead(quads, id, l[|l| - 1]) && (l[|l| - 1].Parents() == [] ==> |l| == 1)
  {
    hide NodeRead;
  }
}
