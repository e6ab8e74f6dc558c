/** A reachable graph whose head does not survive loading through sgpd. */
module LostHead {
  import opened Types
  import opened GraphState
  import opened TopoOrder
  import opened TopoSort
  import opened Sgpd
  import opened SgpdTheorems
  import opened Samples

  /** The nodes: b and, later, e below a; c below b, appended before e. */
  function BranchingNodes(): map<ID, Node> {
    map[A := Sample(A, [], 1), B := Sample(B, [A], 2), C := Sample(C, [B], 3), E := Sample(E, [A], 4)]
  }

  lemma BranchingGraph() returns (g: State)
    ensures Growing(g) && g.nodes == BranchingNodes() && g.headID == E
  {
    hide Growing, Reachable;
    SampleIDs();
    var g1 := GrowRoot(A, 1);
    var g2 := GrowLeaf(g1, B, A, 2);
    var g3 := GrowLeaf(g2, C, B, 3);
    g := GrowLeaf(g3, E, A, 4);
  }

  const DEPTHS: map<ID, nat> := map[A := 0, B := 1, C := 2, E := 1]

  lemma BranchingDepths()
    ensures IsDepth(DepMap(BranchingNodes()), DEPTHS)
  {
    hide DepMap, IsDependency;
    SampleDeps(BranchingNodes(), A, [], 1);
    SampleDeps(BranchingNodes(), B, [A], 2);
    SampleDeps(BranchingNodes(), C, [B], 3);
    SampleDeps(BranchingNodes(), E, [A], 4);
    var D := DepMap(BranchingNodes());
    assert A in D[B] && B in D[C] && A in D[E];
    assert DepthAt(D, DEPTHS, A) && DepthAt(D, DEPTHS, B) && DepthAt(D, DEPTHS, C) && DepthAt(D, DEPTHS, E);
  }

  /** The head e of this reachable graph is lost however the sort breaks ties. */
  lemma BranchingLosesHead() returns (g: State)
    ensures Reachable(g) && g.started && g.headID in g.nodes
    ensures forall sorted :: SortedNodes(g.nodes, sorted) ==> Received(g, sorted).headID != g.headID
  {
    g := BranchingGraph();
    BranchingDepths();
    ReachableLoadable(g);
    forall sorted | SortedNodes(g.nodes, sorted) ensures Received(g, sorted).headID != g.headID {
      if Received(g, sorted).headID == g.headID {
        KeptHeadIsDeepest(g, sorted, DEPTHS, C);
      }
    }
  }
}
