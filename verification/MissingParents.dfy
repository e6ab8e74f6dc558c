/** Rebuilding a graph from nodes whose parents are not all there. */
module MissingParents {
  import opened Types
  import opened GraphInvariant
  import opened GraphTheorems
  import opened Lineage
  import opened TopoOrder
  import opened TopoSort
  import opened Storage
  import opened Samples

  /** The first parent of every stored node is stored. */
  ghost predicate FirstParentsStored(m: map<ID, Node>) {
    forall id :: id in m && m[id].Parents() != [] ==> m[id].Parents()[0] in m
  }

  lemma OrphanTable(n: Node)
    ensures NodeMap([n]) == map[n.id := n]
  {
    ViewsExtend([], n);
    assert [] + [n] == [n];
  }

  /** A node whose parent is not in the bag is accepted all the same, and then cannot be resumed. */
  lemma OrphanAccepted()
    ensures var m := NodeMap([Sample(A, [R], 1)]);
      Acyclic(DepMap(m)) && !ParentsStored(m) && !AsDocumented(m, true) && LineageBreaks(m, A, R, 1)
  {
    hide NodeMap, DepMap, Acyclic;
    var n := Sample(A, [R], 1);
    OrphanTable(n);
    OrphanSorts(n);
    SampleIDs();
    ParentIDsOfParentEdges([R]);
    assert n.Parents() == [R];
    assert R in NodeMap([n])[A].Parents();
    assert LineageBreaks(NodeMap([n]), R, R, 0);
  }

  lemma OrphanSorts(n: Node)
    requires n == Sample(A, [R], 1)
    ensures Acyclic(DepMap(NodeMap([n])))
  {
    hide NodeMap, DepMap, Acyclic;
    OrphanTable(n);
    var m := NodeMap([n]);
    SampleIDs();
    SampleDeps(m, A, [R], 1);
    assert DepMap(m)[A] == {};
    assert DepsEarlier(DepMap(m), [A], 0);
    OrderedIsAcyclic(DepMap(m), [A]);
  }

  lemma FirstParentsRank(m: map<ID, Node>, sorted: seq<Node>, id: ID)
    requires SortedNodes(m, sorted) && id in m && m[id].Parents() != [] && m[id].Parents()[0] in m
    ensures Position(sorted, m[id].Parents()[0]) < Position(sorted, id)
  {
    hide Layered, DepMap;
    var p, s := m[id].Parents()[0], IDs(sorted);
    assert p in m[id].Parents();
    ParentIsDependency(m, id, p);
    SortedIDs(m, sorted);
    SortedDistinct(m, sorted);
    var k := IndexIn(s, id);
    DepIsEarlier(DepMap(m), s, k, p);
    PositionOf(sorted, k);
    PositionOf(sorted, IndexIn(s, p));
  }

  /** When a restored graph resumes every node: exactly when no first parent is missing. */
  lemma AllResumeIff(m: map<ID, Node>, sorted: seq<Node>)
    requires SortedNodes(m, sorted)
    ensures AllHaveLineages(m) <==> FirstParentsStored(m)
  {
    hide SortedNodes, Position;
    if FirstParentsStored(m) {
      var rank := id => Position(sorted, id);
      forall id | id in m && m[id].Parents() != [] && m[id].Parents()[0] in m
        ensures rank(m[id].Parents()[0]) < rank(id)
      {
        FirstParentsRank(m, sorted, id);
      }
      forall id | id in m ensures exists l :: IsLineage(m, id, l) {
        var l := LineageExists(m, id, rank);
      }
    }
    if AllHaveLineages(m) {
      forall id | id in m && m[id].Parents() != [] ensures m[id].Parents()[0] in m {
        var l :| IsLineage(m, id, l);
        assert IsLineage(m, m[id].Parents()[0], l[..|l| - 1]);
      }
    }
  }
}
