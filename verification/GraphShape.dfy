/** Two graphs whose nodes have the same parents walk forward and wait for inference alike. */
module GraphShape {
  import opened Types
  import opened Sequences
  import opened GraphState
  import opened GraphTheorems
  import opened Lineage
  import opened SessionGraph

  /** The same IDs are stored, and each has the same parents, in whatever order. */
  ghost predicate SameParents(nodes: map<ID, Node>, nodes': map<ID, Node>) {
    && nodes.Keys == nodes'.Keys
    && forall id, p :: id in nodes ==> (p in nodes[id].Parents() <==> p in nodes'[id].Parents())
  }

  lemma {:induction false} SameMembersSameLength<T>(s: seq<T>, t: seq<T>)
    requires Distinct(s) && Distinct(t) && forall x :: x in s <==> x in t
    ensures |s| == |t|
  {
    DistinctSize(s);
    DistinctSize(t);
    assert (set x | x in s) == (set x | x in t);
  }

  lemma {:induction false} DistinctSize<T>(s: seq<T>)
    requires Distinct(s)
    ensures |set x | x in s| == |s|
  {
    if s == [] {
      assert (set x | x in s) == {};
    } else {
      var m := |s| - 1;
      DistinctSize(s[..m]);
      assert s == s[..m] + [s[m]];
      assert (set x | x in s) == (set x | x in s[..m]) + {s[m]};
    }
  }

  lemma SameChildren(nodes: map<ID, Node>, children: map<ID, seq<ID>>, nodes': map<ID, Node>,
                     children': map<ID, seq<ID>>, p: ID)
    requires InverseOfParents(nodes, children) && InverseOfParents(nodes', children') && SameParents(nodes, nodes')
    ensures |ChildList(children, p)| == |ChildList(children', p)|
    ensures |ChildList(children, p)| == 1 ==> ChildList(children, p) == ChildList(children', p)
  {
    var s, t := ChildList(children, p), ChildList(children', p);
    forall x ensures x in s <==> x in t {
      assert x in s <==> x in nodes && p in nodes[x].Parents();
      assert x in t <==> x in nodes' && p in nodes'[x].Parents();
    }
    SameMembersSameLength(s, t);
    if |s| == 1 {
      assert s[0] in s && t[0] in t;
    }
  }

  lemma {:induction false} SameAdvance(nodes: map<ID, Node>, children: map<ID, seq<ID>>,
                                       nodes': map<ID, Node>, children': map<ID, seq<ID>>, from: ID, to: ID, n: nat)
    requires InverseOfParents(nodes, children) && InverseOfParents(nodes', children') && SameParents(nodes, nodes')
    ensures AdvancesTo(children, from, to, n) <==> AdvancesTo(children', from, to, n)
    decreases n
  {
    SameChildren(nodes, children, nodes', children', from);
    var cs := ChildList(children, from);
    if |cs| == 1 && n > 0 {
      SameAdvance(nodes, children, nodes', children', cs[0], to, n - 1);
    }
  }

  lemma SamePending(g: State, g': State, id: ID)
    requires InverseOfParents(g.nodes, g.children) && InverseOfParents(g'.nodes, g'.children)
    requires SameParents(g.nodes, g'.nodes)
    requires id in g.nodes ==> g.nodes[id].message.RequiresResponse() == g'.nodes[id].message.RequiresResponse()
    ensures Pending(g, id) <==> Pending(g', id)
  {
    SameChildren(g.nodes, g.children, g'.nodes, g'.children, id);
    var s, t := ChildList(g.children, id), ChildList(g'.children, id);
    assert s == [] <==> |s| == 0;
    assert t == [] <==> |t| == 0;
  }
}
