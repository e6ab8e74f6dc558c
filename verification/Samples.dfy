/** Small graphs grown call by call, for the cases that show a property to fail. */
module Samples {
  import opened Types
  import opened GraphState
  import opened GraphInvariant
  import opened TopoSort

  const A := ID("a")
  const B := ID("b")
  const C := ID("c")
  const E := ID("e")
  const R := ID("r")

  lemma SampleIDs()
    ensures A != B && A != C && A != E && A != R && B != C && B != E && B != R && C != E && C != R && E != R
    ensures NO_ID !in {A, B, C, E, R}
  {
    assert A.text[0] == 'a' && B.text[0] == 'b' && C.text[0] == 'c' && E.text[0] == 'e' && R.text[0] == 'r';
  }

  const HELLO := Message(Some("hello"), None, None, None)

  function Sample(id: ID, parents: seq<ID>, now: Time): Node {
    PlainNode(ID("s"), HELLO, parents, id, now)
  }

  ghost predicate Growing(g: State) {
    Reachable(g) && g.started && !g.closed && g.eventNames == DEFAULT_NAMES && g.session.id == ID("s")
  }

  /** One more sample node below accepted parents. */
  lemma Grow(g: State, id: ID, parents: seq<ID>, now: Time)
    requires Growing(g) && Fresh(g, id) && AppendCheck(g, HELLO, parents) == Ok(parents)
    ensures var g' := AddNode(g, Sample(id, parents, now));
      Growing(g') && g'.nodes == g.nodes[id := Sample(id, parents, now)] && g'.headID == id
  {
    hide Step, Reachable, Fresh, AddNode;
    var op := AppendOp(HELLO, parents, id, now);
    GrowStep(g, id, parents, now);
    ReachableStep(g, op);
    AddedNode(g, Sample(id, parents, now));
  }

  lemma GrowChecks(g: State, parents: seq<ID>)
    requires g.started && !g.closed && g.eventNames == DEFAULT_NAMES
    requires |parents| <= 1 && (parents == [] <==> g.nodes == map[])
    requires parents != [] ==> parents[0] in g.nodes && parents[0] != NO_ID
    ensures AppendCheck(g, HELLO, parents) == Ok(parents)
  {
    if parents != [] {
      assert parents[..0] == [] && parents == [] + [parents[0]];
      assert ValidateReferences(g.nodes, parents[..0]) == Ok([]);
    }
  }

  lemma GrowChecksTwo(g: State, p: ID, q: ID)
    requires Growing(g) && p in g.nodes && q in g.nodes && p != q && NO_ID !in {p, q}
    ensures AppendCheck(g, HELLO, [p, q]) == Ok([p, q])
  {
    GrowChecks(g, [p]);
    assert [p, q][..1] == [p] && [p] + [q] == [p, q];
  }

  lemma GrowStep(g: State, id: ID, parents: seq<ID>, now: Time)
    requires g.session.id == ID("s") && AppendCheck(g, HELLO, parents) == Ok(parents)
    ensures Step(g, AppendOp(HELLO, parents, id, now))
      == (AddNode(g, Sample(id, parents, now)), Appended(Sample(id, parents, now)))
  {
    hide AddNode, AppendCheck, PlainNode;
  }

  lemma AddedNode(g: State, n: Node)
    ensures var g' := AddNode(g, n);
      && g'.nodes == g.nodes[n.id := n] && g'.headID == n.id && g'.started == g.started && g'.closed == g.closed
      && g'.eventNames == g.eventNames && g'.session == g.session
  {
  }

  /** A started graph with one root. */
  lemma GrowRoot(id: ID, now: Time) returns (g: State)
    requires id != NO_ID
    ensures Growing(g) && g.nodes == map[id := Sample(id, [], now)] && g.headID == id
  {
    var g0 := NewGraph(ID("s"), None, DEFAULT_NAMES);
    NewGraphReachable(ID("s"), None, DEFAULT_NAMES);
    ReachableStep(g0, StartOp(0));
    var g1 := Start(g0, 0).0;
    GrowChecks(g1, []);
    Grow(g1, id, [], now);
    g := AddNode(g1, Sample(id, [], now));
  }

  lemma GrowLeaf(g: State, id: ID, parent: ID, now: Time) returns (g': State)
    requires Growing(g) && Fresh(g, id) && parent in g.nodes && parent != NO_ID
    ensures Growing(g') && g'.nodes == g.nodes[id := Sample(id, [parent], now)] && g'.headID == id
  {
    GrowChecks(g, [parent]);
    Grow(g, id, [parent], now);
    g' := AddNode(g, Sample(id, [parent], now));
  }

  /** The sort waits for exactly the stored parents of a sample node. */
  lemma SampleDeps(m: map<ID, Node>, id: ID, parents: seq<ID>, now: Time)
    requires id in m && m[id] == Sample(id, parents, now)
    ensures forall d :: d in DepMap(m)[id] <==> d in m && d in parents
  {
    forall d ensures d in DepMap(m)[id] <==> d in m && d in parents {
      DepMember(m, id, d);
      if d in parents {
        var i :| 0 <= i < |parents| && parents[i] == d;
        assert m[id].edges[i] == EdgeRef(PARENT, d, 0.0);
        assert IsDependency(m[id].edges[i]);
      }
    }
  }
}
