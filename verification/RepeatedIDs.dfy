/** What a node event with an ID already used does to the lineages of a replayed graph. */
module RepeatedIDs {
  import opened Types
  import opened GraphInvariant
  import opened Lineage
  import opened Replay
  import opened AcceptedLogs

  /** Each node is stored under its own ID. */
  ghost predicate OwnIDs(nodes: map<ID, Node>) {
    forall id :: id in nodes ==> nodes[id].id == id
  }

  ghost predicate PassesThrough(l: seq<Node>, id: ID) {
    exists i :: 0 <= i < |l| && l[i].id == id
  }

  /** The ID of n is already on the way from the root to its first parent. */
  ghost predicate UnderItself(nodes: map<ID, Node>, n: Node) {
    n.Parents() != [] && exists l :: IsLineage(nodes, n.Parents()[0], l) && PassesThrough(l, n.id)
  }

  lemma PassesLast(l: seq<Node>, id: ID)
    requires l != []
    ensures PassesThrough(l, id) <==> PassesThrough(l[..|l| - 1], id) || l[|l| - 1].id == id
  {
    var m := |l| - 1;
    if PassesThrough(l, id) && l[m].id != id {
      var i :| 0 <= i < |l| && l[i].id == id;
      assert l[..m][i].id == id;
    }
    if PassesThrough(l[..m], id) {
      var i :| 0 <= i < m && l[..m][i].id == id;
      assert l[i].id == id;
    }
  }

  /** A lineage that does not pass through n.id is not touched by storing n. */
  lemma {:induction false} LineageAside(nodes: map<ID, Node>, n: Node, id: ID, l: seq<Node>)
    requires OwnIDs(nodes) && IsLineage(nodes, id, l) && !PassesThrough(l, n.id)
    ensures IsLineage(nodes[n.id := n], id, l)
    decreases |l|
  {
    PassesLast(l, n.id);
    var parents := nodes[id].Parents();
    if parents != [] { LineageAside(nodes, n, parents[0], l[..|l| - 1]); }
  }

  lemma NewLineage(nodes: map<ID, Node>, n: Node)
    requires OwnIDs(nodes) && !UnderItself(nodes, n)
    requires n.Parents() != [] ==> HasLineage(nodes, n.Parents()[0])
    ensures HasLineage(nodes[n.id := n], n.id)
  {
    var nodes' := nodes[n.id := n];
    if n.Parents() == [] {
      assert IsLineage(nodes', n.id, [n]);
    } else {
      var l :| IsLineage(nodes, n.Parents()[0], l);
      LineageAside(nodes, n, n.Parents()[0], l);
      LineageExtends(nodes', n.id, l);
    }
  }

  /** What led through the old node n.id now leads through the new one. */
  lemma {:induction false} LineageRedirected(nodes: map<ID, Node>, n: Node, id: ID, l: seq<Node>)
    requires OwnIDs(nodes) && IsLineage(nodes, id, l) && HasLineage(nodes[n.id := n], n.id)
    ensures HasLineage(nodes[n.id := n], id)
    decreases |l|
  {
    var nodes' := nodes[n.id := n];
    if id != n.id {
      if nodes[id].Parents() == [] {
        assert IsLineage(nodes', id, [nodes[id]]);
      } else {
        var p := nodes[id].Parents()[0];
        LineageRedirected(nodes, n, p, l[..|l| - 1]);
        var above :| IsLineage(nodes', p, above);
        LineageExtends(nodes', id, above);
      }
    }
  }

  /** Whatever still leads through n.id contains a lineage of n.id. */
  lemma {:induction false} LineageInside(nodes: map<ID, Node>, n: Node, id: ID, l: seq<Node>, new': seq<Node>)
    returns (inner: seq<Node>)
    requires OwnIDs(nodes) && IsLineage(nodes, id, l) && PassesThrough(l, n.id) && IsLineage(nodes[n.id := n], id, new')
    ensures IsLineage(nodes[n.id := n], n.id, inner) && |inner| <= |new'|
    decreases |l|
  {
    if id == n.id {
      inner := new';
    } else {
      PassesLast(l, n.id);
      assert |l| > 1;
      var p := nodes[id].Parents()[0];
      inner := LineageInside(nodes, n, p, l[..|l| - 1], new'[..|new'| - 1]);
    }
  }

  lemma NoLineageUnderItself(nodes: map<ID, Node>, n: Node)
    requires OwnIDs(nodes) && UnderItself(nodes, n)
    ensures !HasLineage(nodes[n.id := n], n.id)
  {
    var nodes' := nodes[n.id := n];
    forall l | IsLineage(nodes', n.id, l) ensures false {
      var p := n.Parents()[0];
      var before :| IsLineage(nodes, p, before) && PassesThrough(before, n.id);
      var inner := LineageInside(nodes, n, p, before, l[..|l| - 1]);
      LineageUnique(nodes', n.id, l, inner);
    }
  }

  /** One node event keeps every lineage exactly when it does not put its ID under itself. */
  lemma StoringKeepsLineagesIff(nodes: map<ID, Node>, n: Node)
    requires OwnIDs(nodes) && AllHaveLineages(nodes) && forall p :: p in n.Parents() ==> p in nodes
    ensures AllHaveLineages(nodes[n.id := n]) <==> !UnderItself(nodes, n)
  {
    var nodes' := nodes[n.id := n];
    if UnderItself(nodes, n) {
      NoLineageUnderItself(nodes, n);
    } else {
      if n.Parents() != [] { assert n.Parents()[0] in n.Parents(); }
      NewLineage(nodes, n);
      forall id | id in nodes' ensures HasLineage(nodes', id) {
        if id in nodes {
          var l :| IsLineage(nodes, id, l);
          LineageRedirected(nodes, n, id, l);
        }
      }
    }
  }

  // ----- over a log -----

  /** The node table after the first k events. */
  function TableAfter(events: seq<Event>, k: nat): map<ID, Node>
    requires k <= |events|
  {
    NodeMap(AppendOrder(events[..k]))
  }

  /** No node event puts its ID under itself. */
  ghost predicate NeverUnderItself(events: seq<Event>, k: nat)
    requires k <= |events|
  {
    forall j {:trigger TableAfter(events, j)} :: 0 <= j < k && events[j].node.Some? ==>
      !UnderItself(TableAfter(events, j), events[j].node.value)
  }

  ghost predicate LineagesThroughout(events: seq<Event>, k: nat)
    requires k <= |events|
  {
    forall j {:trigger TableAfter(events, j)} :: 0 <= j <= k ==> AllHaveLineages(TableAfter(events, j))
  }

  /** The tables are those of the replay, and one event stores its node in them. */
  lemma TableNext(events: seq<Event>, k: nat)
    requires k < |events|
    ensures OwnIDs(TableAfter(events, k))
    ensures TableAfter(events, k + 1) ==
      if events[k].node.Some? then TableAfter(events, k)[events[k].node.value.id := events[k].node.value]
        else TableAfter(events, k)
  {
    assert events[..k + 1] == events[..k] + [events[k]];
    assert events[..k + 1][..k] == events[..k];
    var ns := AppendOrder(events[..k]);
    NodeMapKeys(ns);
    if events[k].node.Some? { ViewsExtend(ns, events[k].node.value); }
  }

  lemma ParentsThere(events: seq<Event>, s: int, k: nat)
    requires StartsAt(events, s) && k < |events| && events[k].node.Some?
    ensures forall p :: p in events[k].node.value.Parents() ==> p in TableAfter(events, k)
  {
    assert IsNodeEvent(events[k]);
    forall p | p in events[k].node.value.Parents() ensures p in TableAfter(events, k) {
      assert AppendedBefore(events, k, p);
      var i :| 0 <= i < k && events[i].node.Some? && events[i].node.value.id == p;
      assert events[..k][i] == events[i];
      assert AppendedBefore(events[..k], k, p);
      AppendOrderMembers(events[..k], p);
      NodeMapKeys(AppendOrder(events[..k]));
    }
  }

  lemma {:induction false} LineagesIff(events: seq<Event>, s: int, k: nat)
    requires StartsAt(events, s) && k <= |events|
    ensures LineagesThroughout(events, k) <==> NeverUnderItself(events, k)
  {
    hide StartsAt, AllHaveLineages, UnderItself, TableAfter;
    if k == 0 {
      NothingStored(events);
    } else {
      var j := k - 1;
      LineagesIff(events, s, j);
      TableNext(events, j);
      if events[j].node.Some? {
        ParentsThere(events, s, j);
        if AllHaveLineages(TableAfter(events, j)) {
          StoringKeepsLineagesIff(TableAfter(events, j), events[j].node.value);
        }
      }
      assert LineagesThroughout(events, k) <==> LineagesThroughout(events, j) && AllHaveLineages(TableAfter(events, k));
    }
  }

  lemma NothingStored(events: seq<Event>)
    ensures AllHaveLineages(TableAfter(events, 0))
  {
    assert events[..0] == [];
  }

  /**
   When replay keeps every node resumable: after every prefix of an accepted log all nodes have lineages
   exactly when no node event puts its ID under itself.
   */
  lemma ReplayKeepsLineagesIff(events: seq<Event>)
    requires Restore(events).Ok?
    ensures Restore(events).value.nodes == TableAfter(events, |events|)
    ensures LineagesThroughout(events, |events|) <==> NeverUnderItself(events, |events|)
  {
    AcceptedLogs.AcceptedLogs(events);
    ReplayAccepts(events);
    var s :| StartsAt(events, s);
    LineagesIff(events, s, |events|);
    assert events[..|events|] == events;
  }

  // ----- distinct IDs -----

  lemma {:induction false} LineageStored(nodes: map<ID, Node>, id: ID, l: seq<Node>, x: ID)
    requires OwnIDs(nodes) && IsLineage(nodes, id, l) && PassesThrough(l, x)
    ensures x in nodes
    decreases |l|
  {
    PassesLast(l, x);
    if l[|l| - 1].id != x {
      assert |l| > 1;
      LineageStored(nodes, nodes[id].Parents()[0], l[..|l| - 1], x);
    }
  }

  /** An ID not stored yet cannot come under itself. */
  lemma NewIDNotUnderItself(nodes: map<ID, Node>, n: Node)
    requires OwnIDs(nodes) && n.id !in nodes
    ensures !UnderItself(nodes, n)
  {
    if UnderItself(nodes, n) {
      var l :| IsLineage(nodes, n.Parents()[0], l) && PassesThrough(l, n.id);
      LineageStored(nodes, n.Parents()[0], l, n.id);
    }
  }

  /** With distinct node IDs no event can put an ID under itself, so every prefix has all its lineages. */
  lemma DistinctIDsKeepLineages(events: seq<Event>)
    requires Restore(events).Ok? && DistinctNodeIDs(events)
    ensures LineagesThroughout(events, |events|)
  {
    ReplayKeepsLineagesIff(events);
    forall j: nat | j < |events| && events[j].node.Some?
      ensures !UnderItself(TableAfter(events, j), events[j].node.value)
    {
      TableNext(events, j);
      NotStoredYet(events, j);
      NewIDNotUnderItself(TableAfter(events, j), events[j].node.value);
    }
  }

  lemma NotStoredYet(events: seq<Event>, j: nat)
    requires DistinctNodeIDs(events) && j < |events| && events[j].node.Some?
    ensures events[j].node.value.id !in TableAfter(events, j)
  {
    var before, n := AppendOrder(events[..j]), events[j].node.value;
    NodeMapKeys(before);
    assert events == events[..j] + ([events[j]] + events[j + 1..]);
    AppendOrderConcat(events[..j], [events[j]] + events[j + 1..]);
    AppendOrderConcat([events[j]], events[j + 1..]);
    assert [events[j]][..0] == [];
    var ns := AppendOrder(events);
    assert ns[|before|] == n;
    forall i | 0 <= i < |before| ensures before[i].id != n.id { assert ns[i] == before[i]; }
  }
}
