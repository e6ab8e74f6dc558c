/** When the sort orders the nodes of one level by timestamp, and a session for which it does not. */
module LevelOrder {
  import opened Types
  import opened GraphState
  import opened TopoOrder
  import opened TopoLevels
  import opened TopoSort
  import opened Samples

  /** Equal depths are sorted by timestamp exactly when ages follow the youngest dependencies one level up. */
  lemma SortOrdersLevelsIff(m: map<ID, Node>, sorted: seq<Node>, depth: map<ID, nat>)
    requires SortedNodes(m, sorted) && IsDepth(DepMap(m), depth) && DistinctTimes(Times(m))
    ensures Measured(DepMap(m), Times(m), depth)
    ensures LevelsInTimeOrder(Times(m), depth, IDs(sorted)) <==> AllAgesFollow(DepMap(m), Times(m), depth)
  {
    LevelsInTimeOrderIff(DepMap(m), Times(m), IDs(sorted), depth);
  }

  /** Two branches from one root; the later branch is continued first. */
  function TwoBranches(): map<ID, Node> {
    map[R := Sample(R, [], 1), A := Sample(A, [R], 2), B := Sample(B, [R], 3), E := Sample(E, [B], 4),
      C := Sample(C, [A], 5)]
  }

  const DEPTHS: map<ID, nat> := map[R := 0, A := 1, B := 1, E := 2, C := 2]

  lemma TrunkGrows() returns (g: State)
    ensures Growing(g) && g.nodes == map[R := Sample(R, [], 1), A := Sample(A, [R], 2), B := Sample(B, [R], 3)]
  {
    hide Growing;
    SampleIDs();
    var g1 := GrowRoot(R, 1);
    var g2 := GrowLeaf(g1, A, R, 2);
    g := GrowLeaf(g2, B, R, 3);
  }

  lemma TwoBranchesGrow() returns (g: State)
    ensures Growing(g) && g.nodes == TwoBranches()
  {
    hide Growing;
    SampleIDs();
    var g3 := TrunkGrows();
    var g4 := GrowLeaf(g3, E, B, 4);
    g := GrowLeaf(g4, C, A, 5);
  }

  lemma TwoBranchesDeps()
    ensures var D := DepMap(TwoBranches());
      D.Keys == {R, A, B, C, E} && D[R] == {} && D[A] == {R} && D[B] == {R} && D[C] == {A} && D[E] == {B}
  {
    hide DepMap;
    var m := TwoBranches();
    SampleIDs();
    SampleDeps(m, R, [], 1);
    SampleDeps(m, A, [R], 2);
    SampleDeps(m, B, [R], 3);
    SampleDeps(m, E, [B], 4);
    SampleDeps(m, C, [A], 5);
  }

  lemma TwoBranchesDepth()
    ensures IsDepth(DepMap(TwoBranches()), DEPTHS)
  {
    hide DepMap;
    TwoBranchesDeps();
    SampleIDs();
    var D := DepMap(TwoBranches());
    assert R in D[A] && R in D[B] && A in D[C] && B in D[E];
    assert DepthAt(D, DEPTHS, R) && DepthAt(D, DEPTHS, A) && DepthAt(D, DEPTHS, B) && DepthAt(D, DEPTHS, C)
      && DepthAt(D, DEPTHS, E);
  }

  const CLOCK: map<ID, Time> := map[R := 1, A := 2, B := 3, E := 4, C := 5]

  lemma TwoBranchesTimes()
    ensures Times(TwoBranches()) == CLOCK && DistinctTimes(CLOCK)
  {
    SampleIDs();
  }

  /** The child c of the older a is younger than the child e of the younger b. */
  lemma TwoBranchesAges()
    ensures var D := DepMap(TwoBranches()); Measured(D, CLOCK, DEPTHS) && !AllAgesFollow(D, CLOCK, DEPTHS)
  {
    hide DepMap, IsDepth, AllAgesFollow, AgesFollow;
    TwoBranchesDeps();
    TwoBranchesDepth();
    SampleIDs();
    var D := DepMap(TwoBranches());
    OnlyYoungest(D, CLOCK, DEPTHS, C, A);
    OnlyYoungest(D, CLOCK, DEPTHS, E, B);
    AgesBreak(D, CLOCK, DEPTHS, C, E, A, B);
  }

  lemma OnlyYoungest(D: Relation, time: map<ID, Time>, depth: map<ID, nat>, x: ID, d: ID)
    requires Measured(D, time, depth) && x in D && D[x] == {d} && d in D && depth[d] + 1 == depth[x]
    ensures Youngest(D, time, depth, x, d)
  {
  }

  lemma AgesBreak(D: Relation, time: map<ID, Time>, depth: map<ID, nat>, x: ID, y: ID, d: ID, e: ID)
    requires Measured(D, time, depth) && x in D && y in D && d in D && e in D && depth[x] == depth[y]
    requires Youngest(D, time, depth, x, d) && Youngest(D, time, depth, y, e) && time[d] < time[e] && time[y] < time[x]
    ensures !AllAgesFollow(D, time, depth)
  {
    assert !AgesFollow(D, time, depth, x, y);
  }

  /** A reachable graph of five nodes with one level that no run of the sort puts in timestamp order. */
  lemma LevelsNotInTimeOrder() returns (g: State)
    ensures Reachable(g) && g.started && IsDepth(DepMap(g.nodes), DEPTHS) && DistinctTimes(Times(g.nodes))
    ensures forall sorted :: SortedNodes(g.nodes, sorted) ==> !LevelsInTimeOrder(Times(g.nodes), DEPTHS, IDs(sorted))
  {
    hide DepMap, Reachable, SortedNodes, LevelsInTimeOrder, IsDepth, AllAgesFollow, Measured, Times, DistinctTimes;
    g := TwoBranchesGrow();
    TwoBranchesDepth();
    TwoBranchesTimes();
    TwoBranchesAges();
    forall sorted | SortedNodes(g.nodes, sorted) ensures !LevelsInTimeOrder(Times(g.nodes), DEPTHS, IDs(sorted)) {
      SortOrdersLevelsIff(g.nodes, sorted, DEPTHS);
    }
  }
}
