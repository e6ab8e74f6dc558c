/** Safety of every reachable session graph, and what its lineage and forward walks return. */
module GraphTheorems {
  import opened Types
  import opened Sequences
  import opened GraphState
  import opened GraphInvariant
  import opened Lineage

  // ----- the children index is the inverse of Parents -----

  /** The children of p in append order, read off the nodes alone. */
  function ChildrenOf(ns: seq<Node>, p: ID): seq<ID> {
    if ns == [] then []
    else
      var before, n := ChildrenOf(ns[..|ns| - 1], p), ns[|ns| - 1];
      if p in n.Parents() then before + [n.id] else before
  }

  lemma {:induction false} LinkParentsMembers(children: map<ID, seq<ID>>, parents: seq<ID>, child: ID, p: ID, c: ID)
    ensures c in ChildList(LinkParents(children, parents, child), p) <==>
            c in ChildList(children, p) || (c == child && p in parents)
  {
    if parents != [] {
      LinkParentsMembers(children, parents[..|parents| - 1], child, p, c);
      assert parents == parents[..|parents| - 1] + [parents[|parents| - 1]];
    }
  }

  lemma {:induction false} LinkDistinctParents(children: map<ID, seq<ID>>, parents: seq<ID>, child: ID, p: ID)
    requires Distinct(parents)
    ensures ChildList(LinkParents(children, parents, child), p) ==
            ChildList(children, p) + (if p in parents then [child] else [])
  {
    hide AddChild;
    if parents != [] {
      var before, last := parents[..|parents| - 1], parents[|parents| - 1];
      assert parents == before + [last];
      LinkDistinctParents(children, before, child, p);
      AddedChild(LinkParents(children, before, child), last, child, p);
    }
  }

  lemma AddedChild(children: map<ID, seq<ID>>, parent: ID, child: ID, p: ID)
    ensures ChildList(AddChild(children, parent, child), p)
         == ChildList(children, p) + if p == parent then [child] else []
  {
  }

  lemma {:induction false} ChildIndexInverts(ns: seq<Node>, p: ID)
    requires forall n :: n in ns ==> Distinct(n.Parents())
    ensures ChildList(ChildIndex(ns), p) == ChildrenOf(ns, p)
  {
    if ns != [] {
      var m := |ns| - 1;
      assert ns[m] in ns;
      ChildIndexInverts(ns[..m], p);
      LinkDistinctParents(ChildIndex(ns[..m]), ns[m].Parents(), ns[m].id, p);
    }
  }

  /** Where an ID stands in the append order; unknown IDs stand at the end. */
  ghost function Position(ns: seq<Node>, id: ID): (k: nat)
    ensures k <= |ns|
    ensures if Before(ns, |ns|, id) then k < |ns| && ns[k].id == id else k == |ns|
  {
    if Before(ns, |ns|, id) then
      var j :| 0 <= j < |ns| && ns[j].id == id; j
    else |ns|
  }

  /** Earlier nodes rank lower. */
  ghost function Rank(ns: seq<Node>): ID -> nat {
    id => Position(ns, id)
  }

  /** Later nodes are less high. */
  ghost function Height(ns: seq<Node>): ID -> nat {
    id => |ns| - Position(ns, id)
  }

  lemma PositionOf(ns: seq<Node>, k: nat)
    requires k < |ns| && forall i, j :: 0 <= i < j < |ns| ==> ns[i].id != ns[j].id
    ensures Position(ns, ns[k].id) == k
  {
    assert Before(ns, |ns|, ns[k].id);
  }

  lemma {:induction false} ChildrenOfMembers(ns: seq<Node>, p: ID)
    requires forall i, j :: 0 <= i < j < |ns| ==> ns[i].id != ns[j].id
    ensures forall c :: c in ChildrenOf(ns, p) <==> c in NodeMap(ns) && p in NodeMap(ns)[c].Parents()
    ensures Distinct(ChildrenOf(ns, p))
  {
    if ns != [] {
      var m := |ns| - 1;
      ChildrenOfMembers(ns[..m], p);
      NodeMapKeys(ns[..m]);
      forall c | c in NodeMap(ns[..m]) ensures c != ns[m].id {
        var j :| 0 <= j < m && ns[..m][j].id == c;
        assert ns[j].id == c;
      }
      assert ns[m].id !in NodeMap(ns[..m]);
      assert ns[m].id !in ChildrenOf(ns[..m], p);
    }
  }

  /** `children` lists, for every node, exactly the nodes naming it as a parent, once each. */
  ghost predicate InverseOfParents(nodes: map<ID, Node>, children: map<ID, seq<ID>>) {
    && (forall p, c :: c in ChildList(children, p) <==> c in nodes && p in nodes[c].Parents())
    && forall p :: Distinct(ChildList(children, p))
  }

  lemma ViewsInverse(ns: seq<Node>)
    requires forall i, j :: 0 <= i < j < |ns| ==> ns[i].id != ns[j].id
    requires forall n :: n in ns ==> Distinct(n.Parents())
    ensures InverseOfParents(NodeMap(ns), ChildIndex(ns))
  {
    hide NodeMap, ChildIndex, ChildrenOf, ParentIDs;
    forall p
      ensures forall c :: c in ChildList(ChildIndex(ns), p) <==> c in NodeMap(ns) && p in NodeMap(ns)[c].Parents()
      ensures Distinct(ChildList(ChildIndex(ns), p))
    {
      ChildIndexInverts(ns, p);
      ChildrenOfMembers(ns, p);
    }
  }

  lemma AgreesInverse(g: State, ns: seq<Node>, ended: Time)
    requires Agrees(g, ns, ended)
    ensures InverseOfParents(g.nodes, g.children)
  {
    WellOrderedDistinct(g.session.id, ns);
    forall n | n in ns ensures Distinct(n.Parents()) {
      var k :| 0 <= k < |ns| && ns[k] == n;
      assert WellPlaced(g.session.id, ns, k);
    }
    ViewsInverse(ns);
  }

  lemma ReachableMessages(g: State, id: ID)
    requires Reachable(g) && id in g.nodes
    ensures g.nodes[id].message.Valid()
  {
    ReachableInv(g);
    var ended :| Agrees(g, AppendOrder(g.events), ended);
    AgreesOrder(g, AppendOrder(g.events), ended, id);
  }

  /** A stored node has no child listed exactly when no stored node has it as a parent. */
  lemma ReachableLeaf(g: State, id: ID)
    requires Reachable(g)
    ensures ChildList(g.children, id) == [] <==> forall c :: c in g.nodes ==> id !in g.nodes[c].Parents()
  {
    hide Reachable, InverseOfParents, ChildList, ParentIDs;
    ReachableChildren(g);
    LeafIff(g.nodes, g.children, id);
  }

  lemma LeafIff(nodes: map<ID, Node>, children: map<ID, seq<ID>>, p: ID)
    requires InverseOfParents(nodes, children)
    ensures ChildList(children, p) == [] <==> forall c :: c in nodes ==> p !in nodes[c].Parents()
  {
    hide ParentIDs;
    var cs := ChildList(children, p);
    forall c ensures c in cs <==> c in nodes && p in nodes[c].Parents() {
      assert c in ChildList(children, p) <==> c in cs;
    }
    if cs != [] { assert cs[0] in cs; }
  }

  // ----- parents are older, one root, the head is the last node and a leaf -----

  /** Each stored node stands in the order, after all its parents. */
  lemma AgreesOrder(g: State, ns: seq<Node>, ended: Time, id: ID)
    requires Agrees(g, ns, ended) && id in g.nodes
    ensures var k := Position(ns, id);
      k < |ns| && ns[k] == g.nodes[id] && ns[k].id == id && WellPlaced(g.session.id, ns, k)
    ensures forall p :: p in g.nodes[id].Parents() ==> p in g.nodes && Position(ns, p) < Position(ns, id)
  {
    NodeMapKeys(ns);
    WellOrderedDistinct(g.session.id, ns);
    var k := Position(ns, id);
    NodeMapLookup(ns, k);
    assert WellPlaced(g.session.id, ns, k);
    forall p | p in ns[k].Parents() ensures p in g.nodes && Position(ns, p) < k {
      assert Before(ns, k, p);
      var j :| 0 <= j < k && ns[j].id == p;
      PositionOf(ns, j);
      assert Before(ns, |ns|, p);
    }
  }

  lemma AgreesMember(g: State, ns: seq<Node>, ended: Time, k: nat)
    requires Agrees(g, ns, ended) && k < |ns|
    ensures ns[k].id in g.nodes && g.nodes[ns[k].id] == ns[k] && Position(ns, ns[k].id) == k
  {
    WellOrderedDistinct(g.session.id, ns);
    NodeMapLookup(ns, k);
    PositionOf(ns, k);
  }

  ghost predicate IsRoot(g: State, id: ID) {
    id in g.nodes && g.nodes[id].Parents() == []
  }

  /** The children index is the exact inverse of the parent edges. */
  lemma ReachableChildren(g: State)
    requires Reachable(g)
    ensures InverseOfParents(g.nodes, g.children)
  {
    ReachableInv(g);
    var ended :| Agrees(g, AppendOrder(g.events), ended);
    AgreesInverse(g, AppendOrder(g.events), ended);
  }

  /** Parents exist and were appended strictly earlier. */
  lemma ReachableParents(g: State, id: ID)
    requires Reachable(g) && id in g.nodes
    ensures g.nodes[id].id == id && id != NO_ID && g.nodes[id].sessionID == g.session.id
    ensures forall p :: p in g.nodes[id].Parents() ==>
              p in g.nodes && Position(AppendOrder(g.events), p) < Position(AppendOrder(g.events), id)
  {
    ReachableInv(g);
    var ended :| Agrees(g, AppendOrder(g.events), ended);
    AgreesOrder(g, AppendOrder(g.events), ended, id);
  }

  /** A non-empty graph has exactly one root; its head is the last appended node, and a leaf. */
  lemma ReachableRootAndHead(g: State)
    requires Reachable(g)
    ensures g.nodes == map[] ==> g.headID == NO_ID
    ensures g.nodes != map[] ==>
      && g.headID == LastID(AppendOrder(g.events)) && g.headID in g.nodes && ChildList(g.children, g.headID) == []
      && exists root :: IsRoot(g, root) && forall other :: IsRoot(g, other) ==> other == root
  {
    ReachableInv(g);
    var ns := AppendOrder(g.events);
    var ended :| Agrees(g, ns, ended);
    if g.nodes != map[] {
      HeadIsLeaf(g, ns, ended);
      AgreesMember(g, ns, ended, 0);
      assert WellPlaced(g.session.id, ns, 0);
      assert IsRoot(g, ns[0].id);
      forall other | IsRoot(g, other) ensures other == ns[0].id {
        AgreesOrder(g, ns, ended, other);
      }
    } else if ns != [] {
      AgreesMember(g, ns, ended, 0);
    }
  }

  lemma HeadIsLeaf(g: State, ns: seq<Node>, ended: Time)
    requires Agrees(g, ns, ended) && g.nodes != map[]
    ensures ns != [] && g.headID in g.nodes && ChildList(g.children, g.headID) == []
  {
    var m := |ns| - 1;
    AgreesMember(g, ns, ended, m);
    AgreesInverse(g, ns, ended);
    var cs := ChildList(g.children, g.headID);
    if cs != [] {
      assert cs[0] in cs;
      AgreesOrder(g, ns, ended, cs[0]);
    }
  }

  // ----- lineage and forward walking on a reachable graph -----

  lemma AgreesRanked(g: State, ns: seq<Node>, ended: Time)
    requires Agrees(g, ns, ended)
    ensures Ranked(g.nodes, Rank(ns))
    ensures Falling(g.children, Height(ns))
    ensures forall c :: c in g.nodes && g.nodes[c].Parents() != [] ==> g.nodes[c].Parents()[0] in g.nodes
  {
    forall id | id in g.nodes && g.nodes[id].Parents() != []
      ensures g.nodes[id].Parents()[0] in g.nodes && Position(ns, g.nodes[id].Parents()[0]) < Position(ns, id)
    {
      AgreesOrder(g, ns, ended, id);
    }
    AgreesInverse(g, ns, ended);
    forall p | |ChildList(g.children, p)| == 1
      ensures |ns| - Position(ns, ChildList(g.children, p)[0]) < |ns| - Position(ns, p)
    {
      var c := ChildList(g.children, p)[0];
      assert c in ChildList(g.children, p);
      AgreesOrder(g, ns, ended, c);
    }
  }

  /** Every stored node has exactly one lineage: a repetition-free first-parent path from the root. */
  lemma ReachableLineage(g: State, id: ID) returns (l: seq<Node>)
    requires Reachable(g) && id in g.nodes
    ensures IsLineage(g.nodes, id, l)
    ensures forall l' :: IsLineage(g.nodes, id, l') ==> l' == l
    ensures forall missing, n: nat :: !LineageBreaks(g.nodes, id, missing, n)
    ensures IsRoot(g, l[0].id) && l[|l| - 1].id == id
    ensures forall i :: 0 < i < |l| ==> l[i].Parents() != [] && l[i].Parents()[0] == l[i - 1].id
    ensures forall i, j :: 0 <= i < j < |l| ==> l[i].id != l[j].id
  {
    ReachableInv(g);
    var ns := AppendOrder(g.events);
    var ended :| Agrees(g, ns, ended);
    AgreesRanked(g, ns, ended);
    NodeMapKeys(ns);
    l := LineageExists(g.nodes, id, Rank(ns));
    LineageIsPath(g.nodes, id, l, Rank(ns));
    forall l' | IsLineage(g.nodes, id, l') ensures l' == l {
      LineageUnique(g.nodes, id, l, l');
    }
    forall missing, n: nat ensures !LineageBreaks(g.nodes, id, missing, n) {
      LineageDoesNotBreak(g.nodes, id, l, missing, n);
    }
  }

  /** Forward walking ends, at a descendant whose child count is not one. */
  lemma ReachableAdvance(g: State, from: ID) returns (to: ID, n: nat)
    requires Reachable(g) && from in g.nodes
    ensures AdvancesTo(g.children, from, to, n)
    ensures forall to', n': nat :: AdvancesTo(g.children, from, to', n') ==> to' == to
    ensures Descends(g.nodes, from, to, n) && |ChildList(g.children, to)| != 1
  {
    ReachableInv(g);
    var ns := AppendOrder(g.events);
    var ended :| Agrees(g, ns, ended);
    AgreesRanked(g, ns, ended);
    AgreesInverse(g, ns, ended);
    to, n := AdvanceExists(g.children, from, Height(ns));
    AdvanceStops(g.children, from, to, n);
    AdvanceDescends(g.nodes, g.children, from, to, n);
    forall to', n': nat | AdvancesTo(g.children, from, to', n') ensures to' == to {
      AdvanceUnique(g.children, from, to, n, to', n');
    }
  }

  ghost predicate AtMostOneChild(g: State) {
    forall p :: |ChildList(g.children, p)| <= 1
  }

  /** Without branching, node k's only child is node k+1. */
  lemma {:induction false} UnbranchedIsChain(g: State, ns: seq<Node>, ended: Time, k: nat)
    requires Agrees(g, ns, ended) && AtMostOneChild(g) && 0 < k < |ns|
    ensures ChildList(g.children, ns[k - 1].id) == [ns[k].id]
    decreases k
  {
    AgreesMember(g, ns, ended, k);
    AgreesOrder(g, ns, ended, ns[k].id);
    AgreesInverse(g, ns, ended);
    var p := ns[k].Parents()[0];
    assert p in ns[k].Parents() && ns[k].id in ChildList(g.children, p);
    assert ChildList(g.children, p) == [ns[k].id];
    var i := Position(ns, p);
    AgreesOrder(g, ns, ended, p);
    WellOrderedDistinct(g.session.id, ns);
    if i < k - 1 {
      UnbranchedIsChain(g, ns, ended, i + 1);
    }
  }

  lemma {:induction false} ChainAdvance(g: State, ns: seq<Node>, ended: Time, k: nat) returns (n: nat)
    requires Agrees(g, ns, ended) && AtMostOneChild(g) && k < |ns|
    ensures AdvancesTo(g.children, ns[k].id, g.headID, n)
    decreases |ns| - k
  {
    if k == |ns| - 1 {
      n := 0;
      AgreesMember(g, ns, ended, k);
      HeadIsLeaf(g, ns, ended);
    } else {
      UnbranchedIsChain(g, ns, ended, k + 1);
      n := ChainAdvance(g, ns, ended, k + 1);
      n := n + 1;
    }
  }

  /** If no node has two children, walking forward from any node finds the current head. */
  lemma UnbranchedAdvanceFindsHead(g: State, from: ID)
    requires Reachable(g) && from in g.nodes && AtMostOneChild(g)
    ensures exists n: nat :: AdvancesTo(g.children, from, g.headID, n)
    ensures forall to, n: nat :: AdvancesTo(g.children, from, to, n) ==> to == g.headID
  {
    ReachableInv(g);
    var ns := AppendOrder(g.events);
    var ended :| Agrees(g, ns, ended);
    AgreesOrder(g, ns, ended, from);
    var n := ChainAdvance(g, ns, ended, Position(ns, from));
    forall to, n': nat | AdvancesTo(g.children, from, to, n') ensures to == g.headID {
      AdvanceUnique(g.children, from, g.headID, n, to, n');
    }
  }

  // ----- history is persistent -----

  /** The log is a start event, then appended nodes, then at most one end. */
  ghost predicate LogShape(events: seq<Event>) {
    events != [] ==>
      && events[0].kind == SessionStart
      && (forall i :: 0 < i < |events| - 1 ==> events[i].kind == NodeAppended && events[i].node.Some?)
      && (|events| > 1 ==> events[|events| - 1].kind != SessionStart)
  }

  lemma StepExtends(g: State, op: Op)
    requires Admissible(g, op)
    ensures var (g', out) := Step(g, op);
      && (out.Failed? ==> g' == g)
      && (!out.Failed? ==> |g'.events| == |g.events| + 1)
      && g.events <= g'.events
      && forall id :: id in g.nodes ==> id in g'.nodes && g'.nodes[id] == g.nodes[id]
  {
    if op.AppendOp? || op.TypedOp? { AppendShape(g, op); }
  }

  lemma LineageUnchanged(g: State, later: map<ID, Node>, id: ID, l: seq<Node>)
    requires Reachable(g) && id in g.nodes
    requires forall c :: c in g.nodes ==> c in later && later[c] == g.nodes[c]
    ensures IsLineage(later, id, l) <==> IsLineage(g.nodes, id, l)
  {
    var l0 := ReachableLineage(g, id);
    LineageKept(g.nodes, later, id, l0);
    if IsLineage(later, id, l) { LineageUnique(later, id, l, l0); }
  }

  /**
   No later call changes a stored node, the lineage of an existing node, or an emitted event;
   a failing call changes nothing; the log keeps its shape.
   */
  lemma HistoryPersists(g: State, op: Op)
    requires Reachable(g) && Admissible(g, op)
    ensures var (g', out) := Step(g, op);
      && (out.Failed? ==> g' == g)
      && (!out.Failed? ==> |g'.events| == |g.events| + 1)
      && g.events <= g'.events
      && LogShape(g'.events)
      && (forall id :: id in g.nodes ==> id in g'.nodes && g'.nodes[id] == g.nodes[id])
      && (forall id, l :: id in g.nodes ==> (IsLineage(g'.nodes, id, l) <==> IsLineage(g.nodes, id, l)))
  {
    ReachableInv(g);
    StepExtends(g, op);
    StepKeepsInv(g, op);
    var g' := Step(g, op).0;
    InvLogShape(g');
    forall id, l | id in g.nodes ensures IsLineage(g'.nodes, id, l) <==> IsLineage(g.nodes, id, l) {
      LineageUnchanged(g, g'.nodes, id, l);
    }
  }

  lemma AdmissiblePrefix(g: State, ops: seq<Op>)
    requires ops != [] && AdmissibleRun(g, ops)
    ensures AdmissibleRun(g, ops[..|ops| - 1]) && Admissible(Run(g, ops[..|ops| - 1]), ops[|ops| - 1])
  {
    var before := ops[..|ops| - 1];
    forall i | 0 <= i < |before| ensures Admissible(Run(g, before[..i]), before[i]) {
      assert before[..i] == ops[..i];
      assert Admissible(Run(g, ops[..i]), ops[i]);
    }
    assert Admissible(Run(g, ops[..|before|]), ops[|before|]);
  }

  /** Over any number of later calls, stored nodes, their lineages and the log so far stay as they are. */
  lemma {:induction false} HistoryPersistsOverRuns(g: State, ops: seq<Op>)
    requires Reachable(g) && AdmissibleRun(g, ops)
    ensures var g' := Run(g, ops);
      && Reachable(g') && g.events <= g'.events && LogShape(g'.events)
      && (forall id :: id in g.nodes ==> id in g'.nodes && g'.nodes[id] == g.nodes[id])
      && (forall id, l :: id in g.nodes ==> (IsLineage(g'.nodes, id, l) <==> IsLineage(g.nodes, id, l)))
  {
    hide Reachable, IsLineage, LogShape, Step;
    if ops == [] {
      ReachableInv(g);
      InvLogShape(g);
    } else {
      AdmissiblePrefix(g, ops);
      var before := Run(g, ops[..|ops| - 1]);
      HistoryPersistsOverRuns(g, ops[..|ops| - 1]);
      HistoryPersists(before, ops[|ops| - 1]);
      ReachableStep(before, ops[|ops| - 1]);
    }
  }

  lemma InvLogShape(g: State)
    requires Inv(g)
    ensures LogShape(g.events)
  {
    var ns := AppendOrder(g.events);
    var ended :| Agrees(g, ns, ended);
    if g.started {
      forall i | 0 < i <= |ns| ensures g.events[i] == NodeEvent(g.session.id, g.eventNames, ns[i - 1]) {}
    }
  }

  /** A new node's lineage is its first parent's lineage followed by the node itself. */
  lemma NewNodeLineage(g: State, op: Op) returns (l: seq<Node>)
    requires Reachable(g) && Admissible(g, op) && (op.AppendOp? || op.TypedOp?)
    requires Step(g, op).1.Appended?
    ensures IsLineage(Step(g, op).0.nodes, op.id, l)
    ensures forall l' :: IsLineage(Step(g, op).0.nodes, op.id, l') ==> l' == l
    ensures l != [] && l[|l| - 1] == Step(g, op).1.node
    ensures if op.parents == [] then |l| == 1 else IsLineage(g.nodes, op.parents[0], l[..|l| - 1])
  {
    var n := Step(g, op).1.node;
    var later := Step(g, op).0.nodes;
    AppendShape(g, op);
    assert later == g.nodes[op.id := n];
    if op.parents == [] {
      l := [n];
    } else {
      FirstParentKept(g, op);
      var above := ReachableLineage(g, op.parents[0]);
      LineageKept(g.nodes, later, op.parents[0], above);
      l := above + [n];
      assert l[..|l| - 1] == above;
    }
    forall l' | IsLineage(later, op.id, l') ensures l' == l {
      LineageUnique(later, op.id, l', l);
    }
  }

  lemma {:induction false} ValidatedFirst(nodes: map<ID, Node>, ids: seq<ID>)
    requires ids != [] && ValidateReferences(nodes, ids).Ok?
    ensures var v := ValidateReferences(nodes, ids).value; v != [] && v[0] == ids[0] && ids[0] in nodes
  {
    if |ids| > 1 {
      ValidatedFirst(nodes, ids[..|ids| - 1]);
    } else {
      assert ids[..0] == [];
    }
  }

  lemma FirstParentKept(g: State, op: Op)
    requires Admissible(g, op) && (op.AppendOp? || op.TypedOp?) && Step(g, op).1.Appended? && op.parents != []
    ensures var parents := Step(g, op).1.node.Parents();
      parents != [] && parents[0] == op.parents[0] && parents[0] in g.nodes
  {
    var check := AppendCheck(g, op.message, op.parents);
    ValidatedFirst(g.nodes, op.parents);
    ParentIDsOfParentEdges(check.value);
    if op.TypedOp? {
      DecorateKeepsParents(PlainNode(g.session.id, op.message, check.value, op.id, op.now), op.kind, op.extra,
        op.content);
    }
  }
}
