/** Canonical lineage and forward walking, as relations on the node table and the children index. */
module Lineage {
  import opened Types
  import opened GraphState

  /** l leads from a root to `id` along first parents. */
  ghost predicate IsLineage(nodes: map<ID, Node>, id: ID, l: seq<Node>)
    decreases |l|
  {
    && id in nodes && l != [] && l[|l| - 1] == nodes[id]
    && var parents := nodes[id].Parents();
       if parents == [] then |l| == 1 else IsLineage(nodes, parents[0], l[..|l| - 1])
  }

  /** n first-parent steps from `id` lead to an ID that is not stored. */
  ghost predicate LineageBreaks(nodes: map<ID, Node>, id: ID, missing: ID, n: nat)
    decreases n
  {
    if id !in nodes then n == 0 && missing == id
    else n > 0 && nodes[id].Parents() != [] && LineageBreaks(nodes, nodes[id].Parents()[0], missing, n - 1)
  }

  /** The climb along first parents ends after n steps, at a root or at an ID that is not stored. */
  ghost predicate ClimbEnds(nodes: map<ID, Node>, id: ID, n: nat)
    decreases n
  {
    if id !in nodes || nodes[id].Parents() == [] then n == 0
    else n > 0 && ClimbEnds(nodes, nodes[id].Parents()[0], n - 1)
  }

  /** n single-child steps from `from` lead to `to`, which has no child or several. */
  ghost predicate AdvancesTo(children: map<ID, seq<ID>>, from: ID, to: ID, n: nat)
    decreases n
  {
    var cs := ChildList(children, from);
    if |cs| != 1 then n == 0 && to == from else n > 0 && AdvancesTo(children, cs[0], to, n - 1)
  }

  /** d is n parent edges below a. */
  ghost predicate Descends(nodes: map<ID, Node>, a: ID, d: ID, n: nat)
    decreases n
  {
    if n == 0 then a == d
    else exists c :: c in nodes && a in nodes[c].Parents() && Descends(nodes, c, d, n - 1)
  }

  /** A measure under which every stored first parent is older than its child. */
  ghost predicate Ranked(nodes: map<ID, Node>, rank: ID -> nat) {
    forall id :: id in nodes && nodes[id].Parents() != [] && nodes[id].Parents()[0] in nodes ==>
      rank(nodes[id].Parents()[0]) < rank(id)
  }

  /** A measure that falls along every single-child step. */
  ghost predicate Falling(children: map<ID, seq<ID>>, height: ID -> nat) {
    forall p :: |ChildList(children, p)| == 1 ==> height(ChildList(children, p)[0]) < height(p)
  }

  // ----- lineage -----

  /** Any lineage of `from`, followed by `tail`, is a lineage of `to`. */
  ghost predicate LeadsOn(nodes: map<ID, Node>, from: ID, to: ID, tail: seq<Node>) {
    forall l :: IsLineage(nodes, from, l) ==> IsLineage(nodes, to, l + tail)
  }

  /** If the lineage of `from` breaks, that of `to` breaks at the same ID, `steps` further on. */
  ghost predicate BreaksOn(nodes: map<ID, Node>, from: ID, to: ID, steps: nat) {
    forall x, n: nat :: LineageBreaks(nodes, from, x, n) ==> LineageBreaks(nodes, to, x, n + steps)
  }

  lemma LeadsOnStart(nodes: map<ID, Node>, id: ID)
    ensures LeadsOn(nodes, id, id, []) && BreaksOn(nodes, id, id, 0)
  {
    forall l | IsLineage(nodes, id, l) ensures IsLineage(nodes, id, l + []) { assert l + [] == l; }
  }

  /** One first-parent step up. */
  lemma LeadsOnUp(nodes: map<ID, Node>, below: Node, parent: ID, to: ID, tail: seq<Node>, steps: nat)
    requires below.id in nodes && nodes[below.id] == below && below.Parents() != [] && below.Parents()[0] == parent
    requires LeadsOn(nodes, below.id, to, tail) && BreaksOn(nodes, below.id, to, steps)
    ensures LeadsOn(nodes, parent, to, [below] + tail) && BreaksOn(nodes, parent, to, steps + 1)
  {
    forall l | IsLineage(nodes, parent, l) ensures IsLineage(nodes, to, l + ([below] + tail)) {
      assert (l + [below])[..|l|] == l;
      assert IsLineage(nodes, below.id, l + [below]);
      assert l + ([below] + tail) == (l + [below]) + tail;
    }
    forall x, n: nat | LineageBreaks(nodes, parent, x, n) ensures LineageBreaks(nodes, to, x, n + (steps + 1)) {
      assert LineageBreaks(nodes, below.id, x, n + 1);
      assert (n + 1) + steps == n + (steps + 1);
    }
  }

  lemma LeadsToRoot(nodes: map<ID, Node>, root: Node, to: ID, tail: seq<Node>)
    requires root.id in nodes && nodes[root.id] == root && root.Parents() == [] && LeadsOn(nodes, root.id, to, tail)
    ensures IsLineage(nodes, to, [root] + tail)
  {
    assert IsLineage(nodes, root.id, [root]);
  }

  lemma BreaksHere(nodes: map<ID, Node>, missing: ID, to: ID, steps: nat)
    requires missing !in nodes && BreaksOn(nodes, missing, to, steps)
    ensures exists n: nat :: LineageBreaks(nodes, to, missing, n)
  {
    assert LineageBreaks(nodes, missing, missing, 0);
    assert LineageBreaks(nodes, to, missing, 0 + steps);
  }

  lemma {:induction false} LineageClimbs(nodes: map<ID, Node>, id: ID, l: seq<Node>)
    requires IsLineage(nodes, id, l)
    ensures ClimbEnds(nodes, id, |l| - 1)
    decreases |l|
  {
    if nodes[id].Parents() != [] { LineageClimbs(nodes, nodes[id].Parents()[0], l[..|l| - 1]); }
  }

  lemma {:induction false} BreakClimbs(nodes: map<ID, Node>, id: ID, missing: ID, n: nat)
    requires LineageBreaks(nodes, id, missing, n)
    ensures ClimbEnds(nodes, id, n)
    decreases n
  {
    if id in nodes { BreakClimbs(nodes, nodes[id].Parents()[0], missing, n - 1); }
  }

  lemma {:induction false} ClimbFinds(nodes: map<ID, Node>, id: ID, n: nat) returns (l: seq<Node>, missing: ID)
    requires ClimbEnds(nodes, id, n)
    ensures IsLineage(nodes, id, l) || LineageBreaks(nodes, id, missing, n)
    decreases n
  {
    l, missing := [], id;
    if id in nodes {
      if nodes[id].Parents() == [] {
        l := [nodes[id]];
      } else {
        l, missing := ClimbFinds(nodes, nodes[id].Parents()[0], n - 1);
        if IsLineage(nodes, nodes[id].Parents()[0], l) {
          LineageExtends(nodes, id, l);
          l := l + [nodes[id]];
        }
      }
    }
  }

  ghost predicate HasLineage(nodes: map<ID, Node>, id: ID) {
    exists l :: IsLineage(nodes, id, l)
  }

  /** Every stored node can be resumed. */
  ghost predicate AllHaveLineages(nodes: map<ID, Node>) {
    forall id :: id in nodes ==> HasLineage(nodes, id)
  }

  ghost predicate Breaks(nodes: map<ID, Node>, id: ID) {
    exists missing, n: nat :: LineageBreaks(nodes, id, missing, n)
  }

  ghost predicate ClimbIsFinite(nodes: map<ID, Node>, id: ID) {
    exists n: nat :: ClimbEnds(nodes, id, n)
  }

  lemma FiniteClimbFinds(nodes: map<ID, Node>, id: ID)
    requires ClimbIsFinite(nodes, id)
    ensures HasLineage(nodes, id) || Breaks(nodes, id)
  {
    var n: nat :| ClimbEnds(nodes, id, n);
    var l, missing := ClimbFinds(nodes, id, n);
    assert IsLineage(nodes, id, l) || LineageBreaks(nodes, id, missing, n);
  }

  lemma BreakIsFinite(nodes: map<ID, Node>, id: ID)
    requires Breaks(nodes, id)
    ensures ClimbIsFinite(nodes, id)
  {
    var missing, n: nat :| LineageBreaks(nodes, id, missing, n);
    BreakClimbs(nodes, id, missing, n);
    assert ClimbEnds(nodes, id, n);
  }

  lemma LineageIsFinite(nodes: map<ID, Node>, id: ID)
    requires HasLineage(nodes, id)
    ensures ClimbIsFinite(nodes, id)
  {
    var l :| IsLineage(nodes, id, l);
    LineageClimbs(nodes, id, l);
  }

  /** The climb ends exactly when there is a lineage, or a point at which it breaks. */
  lemma ClimbEndsIff(nodes: map<ID, Node>, id: ID)
    ensures ClimbIsFinite(nodes, id) <==> HasLineage(nodes, id) || Breaks(nodes, id)
  {
    if ClimbIsFinite(nodes, id) { FiniteClimbFinds(nodes, id); }
    if HasLineage(nodes, id) { LineageIsFinite(nodes, id); }
    if Breaks(nodes, id) { BreakIsFinite(nodes, id); }
  }

  lemma {:induction false} LineageUnique(nodes: map<ID, Node>, id: ID, l: seq<Node>, l': seq<Node>)
    requires IsLineage(nodes, id, l) && IsLineage(nodes, id, l')
    ensures l == l'
    decreases |l|
  {
    var parents := nodes[id].Parents();
    if parents != [] {
      LineageUnique(nodes, parents[0], l[..|l| - 1], l'[..|l'| - 1]);
    }
    assert l == l[..|l| - 1] + [nodes[id]] && l' == l'[..|l'| - 1] + [nodes[id]];
  }

  /** One first-parent step down. */
  lemma LineageExtends(nodes: map<ID, Node>, id: ID, above: seq<Node>)
    requires id in nodes && nodes[id].Parents() != [] && IsLineage(nodes, nodes[id].Parents()[0], above)
    ensures IsLineage(nodes, id, above + [nodes[id]])
  {
    assert (above + [nodes[id]])[..|above|] == above;
  }

  lemma {:induction false} LineageDoesNotBreak(nodes: map<ID, Node>, id: ID, l: seq<Node>, missing: ID, n: nat)
    requires IsLineage(nodes, id, l)
    ensures !LineageBreaks(nodes, id, missing, n)
    decreases |l|
  {
    var parents := nodes[id].Parents();
    if parents != [] && n > 0 {
      LineageDoesNotBreak(nodes, parents[0], l[..|l| - 1], missing, n - 1);
    }
  }

  lemma {:induction false} LineageExists(nodes: map<ID, Node>, id: ID, rank: ID -> nat) returns (l: seq<Node>)
    requires Ranked(nodes, rank) && id in nodes
    requires forall c :: c in nodes && nodes[c].Parents() != [] ==> nodes[c].Parents()[0] in nodes
    ensures IsLineage(nodes, id, l)
    decreases rank(id)
  {
    var parents := nodes[id].Parents();
    if parents == [] {
      l := [nodes[id]];
    } else {
      var above := LineageExists(nodes, parents[0], rank);
      l := above + [nodes[id]];
      assert l[..|l| - 1] == above;
    }
  }

  /** A lineage starts at a root, follows first parents, and never repeats a node. */
  lemma {:induction false} LineageIsPath(nodes: map<ID, Node>, id: ID, l: seq<Node>, rank: ID -> nat)
    requires IsLineage(nodes, id, l) && Ranked(nodes, rank)
    requires forall c :: c in nodes ==> nodes[c].id == c
    ensures l[0].Parents() == [] && l[|l| - 1].id == id
    ensures forall i :: 0 <= i < |l| ==> l[i].id in nodes && nodes[l[i].id] == l[i] && rank(l[i].id) <= rank(id)
    ensures forall i :: 0 < i < |l| ==> l[i].Parents() != [] && l[i].Parents()[0] == l[i - 1].id
    ensures forall i, j :: 0 <= i < j < |l| ==> rank(l[i].id) < rank(l[j].id)
    decreases |l|
  {
    var parents := nodes[id].Parents();
    if parents != [] {
      var above := l[..|l| - 1];
      LineageIsPath(nodes, parents[0], above, rank);
      assert l == above + [nodes[id]];
    }
  }

  lemma {:induction false} LineageKept(nodes: map<ID, Node>, later: map<ID, Node>, id: ID, l: seq<Node>)
    requires IsLineage(nodes, id, l)
    requires forall c :: c in nodes ==> c in later && later[c] == nodes[c]
    ensures IsLineage(later, id, l)
    decreases |l|
  {
    var parents := nodes[id].Parents();
    if parents != [] {
      LineageKept(nodes, later, parents[0], l[..|l| - 1]);
    }
  }

  // ----- forward walking -----

  lemma {:induction false} AdvanceUnique(children: map<ID, seq<ID>>, from: ID, a: ID, m: nat, b: ID, n: nat)
    requires AdvancesTo(children, from, a, m) && AdvancesTo(children, from, b, n)
    ensures a == b && m == n
    decreases m
  {
    if |ChildList(children, from)| == 1 {
      AdvanceUnique(children, ChildList(children, from)[0], a, m - 1, b, n - 1);
    }
  }

  lemma {:induction false} AdvanceExists(children: map<ID, seq<ID>>, from: ID, height: ID -> nat)
    returns (to: ID, n: nat)
    requires Falling(children, height)
    ensures AdvancesTo(children, from, to, n)
    decreases height(from)
  {
    var cs := ChildList(children, from);
    if |cs| == 1 {
      to, n := AdvanceExists(children, cs[0], height);
      n := n + 1;
    } else {
      to, n := from, 0;
    }
  }

  lemma {:induction false} AdvanceStops(children: map<ID, seq<ID>>, from: ID, to: ID, n: nat)
    requires AdvancesTo(children, from, to, n)
    ensures |ChildList(children, to)| != 1
    decreases n
  {
    if |ChildList(children, from)| == 1 {
      AdvanceStops(children, ChildList(children, from)[0], to, n - 1);
    }
  }

  lemma {:induction false} AdvanceDescends(nodes: map<ID, Node>, children: map<ID, seq<ID>>, from: ID, to: ID, n: nat)
    requires AdvancesTo(children, from, to, n)
    requires forall p, c :: c in ChildList(children, p) ==> c in nodes && p in nodes[c].Parents()
    ensures Descends(nodes, from, to, n)
    decreases n
  {
    var cs := ChildList(children, from);
    if |cs| == 1 {
      AdvanceDescends(nodes, children, cs[0], to, n - 1);
      assert cs[0] in cs;
      assert cs[0] in nodes && from in nodes[cs[0]].Parents() && Descends(nodes, cs[0], to, n - 1);
    }
  }
}
