/**
 Where the store has a choice: the lineage it gives is the canonical one exactly when no node on the way has two
 parents.
 */
module LineageChoice {
  import opened Types
  import opened Sequences
  import opened GraphState
  import opened GraphInvariant
  import opened GraphTheorems
  import opened Lineage
  import opened Quads
  import opened CayleyStore
  import opened NodeCodec
  import opened Readings
  import opened StoreLoad
  import opened WriteThrough
  import opened StoreTheorems

  // ----- each parent can come first -----

  lemma {:induction false} FirstEdgeFirstParent(edges: seq<EdgeRef>)
    requires edges != [] && edges[0].kind == PARENT
    ensures ParentIDs(edges) != [] && ParentIDs(edges)[0] == edges[0].nodeID
  {
    if |edges| > 1 { FirstEdgeFirstParent(edges[..|edges| - 1]); }
  }

  lemma ParentComesFirst(n: Node, e: EdgeRef)
    requires e.kind == PARENT
    ensures EdgeRank(MainQuad(n, e).pred) == 0
  {
  }

  /** Each parent of a stored node comes first in some read. */
  lemma ParentCanLead(quads: set<Quad>, n: Node, p: ID) returns (m: Node)
    requires Owns(quads, n) && PlainParents(n) && Out(quads, n.id, PSession) != {} && p in n.Parents()
    ensures NodeRead(quads, n.id, m) && m.Parents() != [] && m.Parents()[0] == p
  {
    hide NodeRead, Owns, EdgeFrom, EdgeSet, Garbled, MainQuad;
    ParentIDsMembers(n.edges, p);
    var e :| e in n.edges && e.kind == PARENT && e.nodeID == p;
    PlainGarbled(n, e);
    EdgeSetIs(quads, n, MainQuad(n, e));
    ParentComesFirst(n, e);
    var qs := ListingFrom(EdgeSet(quads, n.id), MainQuad(n, e));
    m := ReadInOrder(quads, n.id, qs);
    PlainFromMain(quads, n, e, m.edges[0]);
    EdgeKeepsKind(quads, n, e, m.edges[0]);
    FirstEdgeFirstParent(m.edges);
  }

  // ----- lineages from choices -----

  /** Every stored node can be read, and with any of its parents first. */
  ghost predicate FreeChoice(read: (ID, Node) -> bool, nodes: map<ID, Node>) {
    && (forall id :: id in nodes && nodes[id].Parents() == [] ==> exists m :: read(id, m) && m.Parents() == [])
    && forall id, p {:trigger CanLead(read, id, p)} :: id in nodes && p in nodes[id].Parents() ==> CanLead(read, id, p)
  }

  ghost predicate CanLead(read: (ID, Node) -> bool, id: ID, p: ID) {
    exists m :: read(id, m) && m.Parents() != [] && m.Parents()[0] == p
  }

  /** Parents are stored, and older. */
  ghost predicate OlderParents(nodes: map<ID, Node>, rank: ID -> nat) {
    forall id, p :: id in nodes && p in nodes[id].Parents() ==> p in nodes && rank(p) < rank(id)
  }

  lemma StepUp(read: (ID, Node) -> bool, id: ID, p: ID, above: seq<Node>) returns (l: seq<Node>)
    requires CanLead(read, id, p) && PathUp(read, p, above)
    ensures PathUp(read, id, l) && |l| == |above| + 1 && l[..|above|] == above
  {
    var m :| read(id, m) && m.Parents() != [] && m.Parents()[0] == p;
    l := above + [m];
    assert l[..|above|] == above;
  }

  lemma {:induction false} SomePath(read: (ID, Node) -> bool, nodes: map<ID, Node>, rank: ID -> nat, id: ID)
    returns (l: seq<Node>)
    requires FreeChoice(read, nodes) && OlderParents(nodes, rank) && id in nodes
    ensures PathUp(read, id, l)
    decreases rank(id)
  {
    var parents := nodes[id].Parents();
    if parents == [] {
      var m :| read(id, m) && m.Parents() == [];
      l := [m];
    } else {
      assert parents[0] in parents;
      var above := SomePath(read, nodes, rank, parents[0]);
      assert CanLead(read, id, parents[0]);
      l := StepUp(read, id, parents[0], above);
    }
  }

  /** The node k places before the end. */
  function FromEnd(l: seq<Node>, k: nat): Node
    requires k < |l|
  {
    l[|l| - 1 - k]
  }

  /** A path can leave the canonical lineage above any node with a second parent. */
  lemma {:induction false} OtherPath(read: (ID, Node) -> bool, nodes: map<ID, Node>, rank: ID -> nat, id: ID,
                                     l: seq<Node>, k: nat, p: ID) returns (l': seq<Node>)
    requires FreeChoice(read, nodes) && OlderParents(nodes, rank) && IsLineage(nodes, id, l)
    requires k < |l| && p in FromEnd(l, k).Parents()
    ensures PathUp(read, id, l') && k + 1 < |l'| && PathUp(read, p, l'[..|l'| - 1 - k])
    decreases k
  {
    if k == 0 {
      var above := SomePath(read, nodes, rank, p);
      assert CanLead(read, id, p);
      l' := StepUp(read, id, p, above);
    } else {
      var parents := nodes[id].Parents();
      assert parents != [] && parents[0] in parents;
      assert FromEnd(l[..|l| - 1], k - 1) == FromEnd(l, k);
      var above := OtherPath(read, nodes, rank, parents[0], l[..|l| - 1], k - 1, p);
      assert CanLead(read, id, parents[0]);
      l' := StepUp(read, id, parents[0], above);
      assert l'[..|l'| - 1 - k] == above[..|above| - k];
    }
  }

  // ----- on a faithful copy of a graph -----

  lemma MirroredOwns(quads: set<Quad>, g: State, id: ID)
    requires Reachable(g) && Mirrors(quads, g) && id in g.nodes
    ensures g.nodes[id].id == id && Owns(quads, g.nodes[id])
    ensures Out(quads, id, PSession) != {} && Distinct(g.nodes[id].Parents())
  {
    hide Owns;
    ReachableInv(g);
    var ns := AppendOrder(g.events);
    var ended :| Agrees(g, ns, ended);
    AgreesOrder(g, ns, ended, id);
    SessionIsNoNode(quads, g.session, ns, EndingOf(g), Position(ns, id));
    MirroredStored(quads, g, id);
  }

  lemma MirroredRoot(quads: set<Quad>, g: State, id: ID) returns (m: Node)
    requires Reachable(g) && Mirrors(quads, g) && PlainTable(g.nodes) && id in g.nodes && g.nodes[id].Parents() == []
    ensures NodeRead(quads, id, m) && m.Parents() == []
  {
    hide NodeRead, Mirrors;
    MirroredOwns(quads, g, id);
    var qs := GroupedListing(EdgeSet(quads, id));
    m := ReadInOrder(quads, id, qs);
    assert m.Parents() != [] ==> m.Parents()[0] in m.Parents();
    MirroredNode(quads, g, id, m);
    ReadParents(g.nodes[id], m);
  }

  lemma MirroredLead(quads: set<Quad>, g: State, id: ID, p: ID)
    requires Reachable(g) && Mirrors(quads, g) && PlainTable(g.nodes) && id in g.nodes && p in g.nodes[id].Parents()
    ensures CanLead(Reader(quads), id, p)
  {
    hide NodeRead, Mirrors, Reachable, PlainParents, Owns;
    MirroredOwns(quads, g, id);
    var m := ParentCanLead(quads, g.nodes[id], p);
    assert Reader(quads)(id, m);
  }

  lemma MirroredChoice(quads: set<Quad>, g: State)
    requires Reachable(g) && Mirrors(quads, g) && PlainTable(g.nodes)
    ensures FreeChoice(Reader(quads), g.nodes) && OlderParents(g.nodes, Rank(AppendOrder(g.events)))
  {
    hide NodeRead, Mirrors, Reachable, PlainTable, CanLead, ParentIDs, AppendOrder;
    var read := Reader(quads);
    forall id | id in g.nodes && g.nodes[id].Parents() == [] ensures exists m :: read(id, m) && m.Parents() == [] {
      var m := MirroredRoot(quads, g, id);
      assert read(id, m);
    }
    forall id, p | id in g.nodes && p in g.nodes[id].Parents() ensures CanLead(read, id, p) {
      MirroredLead(quads, g, id, p);
    }
    forall id, p | id in g.nodes && p in g.nodes[id].Parents()
      ensures p in g.nodes && Position(AppendOrder(g.events), p) < Position(AppendOrder(g.events), id)
    {
      ReachableParents(g, id);
    }
  }

  /** A lineage goes from each node to its first parent. */
  lemma {:induction false} LineageLinks(nodes: map<ID, Node>, id: ID, l: seq<Node>, i: nat)
    requires IsLineage(nodes, id, l) && i < |l| && (forall x :: x in nodes ==> nodes[x].id == x)
    ensures l[i].id in nodes && nodes[l[i].id] == l[i]
    ensures i > 0 ==> l[i].Parents() != [] && l[i - 1].id == l[i].Parents()[0]
    decreases |l|
  {
    if i < |l| - 1 {
      LineageLinks(nodes, nodes[id].Parents()[0], l[..|l| - 1], i);
    } else if i > 0 {
      LineageLinks(nodes, nodes[id].Parents()[0], l[..|l| - 1], i - 1);
    }
  }

  /** l' is l, node by node as read back. */
  ghost predicate AsRead(l: seq<Node>, l': seq<Node>) {
    |l'| == |l| && forall i :: 0 <= i < |l| ==> ReadAs(l[i], l'[i])
  }

  /** A node with two parents on the way up gives the store a lineage that is not the canonical one. */
  lemma SecondParentDiverts(quads: set<Quad>, g: State, id: ID, l: seq<Node>, i: nat) returns (l': seq<Node>)
    requires Reachable(g) && Mirrors(quads, g) && PlainTable(g.nodes) && IsLineage(g.nodes, id, l)
    requires i < |l| && |l[i].Parents()| > 1
    ensures StoreLineage(quads, id, l') && !AsRead(l, l')
  {
    hide Mirrors, PlainTable, Reachable, NodeRead, ReadAs, ParentIDs;
    MirroredChoice(quads, g);
    forall x | x in g.nodes ensures g.nodes[x].id == x { MirroredOwns(quads, g, x); }
    LineageLinks(g.nodes, id, l, i);
    MirroredOwns(quads, g, l[i].id);
    var k, p := |l| - 1 - i, l[i].Parents()[1];
    l' := OtherPath(Reader(quads), g.nodes, Rank(AppendOrder(g.events)), id, l, k, p);
    if AsRead(l, l') {
      assert l'[..|l'| - 1 - k][i - 1] == l'[i - 1];
      ReadKeepsID(quads, p, l'[i - 1]);
      ReadBasics(l[i - 1], l'[i - 1]);
    }
  }

  /**
   On a faithful copy, every possible stored lineage is the canonical one iff no node on the way up has two
   parents.
   */
  lemma StoreLineageIsCanonicalIff(quads: set<Quad>, g: State, id: ID, l: seq<Node>)
    requires Reachable(g) && Mirrors(quads, g) && PlainTable(g.nodes) && IsLineage(g.nodes, id, l)
    ensures (forall l' :: StoreLineage(quads, id, l') ==> AsRead(l, l')) <==>
      (forall i :: 0 <= i < |l| ==> |l[i].Parents()| <= 1)
  {
    hide Mirrors, PlainTable, Reachable, StoreLineage, AsRead, IsLineage;
    if forall i :: 0 <= i < |l| ==> |l[i].Parents()| <= 1 {
      forall l' | StoreLineage(quads, id, l') ensures AsRead(l, l') {
        StoreLineageIsCanonical(quads, g, id, l, l');
        ReadEach(l, l');
      }
    } else {
      var i :| 0 <= i < |l| && |l[i].Parents()| > 1;
      var l' := SecondParentDiverts(quads, g, id, l, i);
    }
  }

  lemma ReadEach(l: seq<Node>, l': seq<Node>)
    requires |l'| == |l| && forall i :: 0 <= i < |l| ==> ReadAs(l[i], l'[i])
    ensures AsRead(l, l')
  {
  }
}
