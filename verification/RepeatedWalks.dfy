/** What a node event with an ID already used does to the forward walks of a replayed graph. */
module RepeatedWalks {
  import opened Types
  import opened GraphState
  import opened GraphInvariant
  import opened Lineage
  import opened Replay
  import opened AcceptedLogs
  import opened RepeatedIDs

  ghost predicate WalkEnds(children: map<ID, seq<ID>>, from: ID) {
    exists to, n: nat :: AdvancesTo(children, from, to, n)
  }

  /** From everywhere the walk along single children ends. */
  ghost predicate AllWalksEnd(children: map<ID, seq<ID>>) {
    forall from {:trigger WalkEnds(children, from)} :: WalkEnds(children, from)
  }

  /** n single-child steps lead from `from` to `to`, and none of them starts at one of `parents`. */
  ghost predicate WalksPast(children: map<ID, seq<ID>>, parents: seq<ID>, from: ID, to: ID, n: nat)
    decreases n
  {
    if n == 0 then from == to
    else
      && from !in parents && |ChildList(children, from)| == 1
      && WalksPast(children, parents, ChildList(children, from)[0], to, n - 1)
  }

  /** The walk from `child` comes, past all other parents, to a leaf that is once among the parents. */
  ghost predicate LoopsBack(children: map<ID, seq<ID>>, parents: seq<ID>, child: ID) {
    exists to, n: nat :: WalksPast(children, parents, child, to, n) && ChildList(children, to) == []
      && multiset(parents)[to] == 1
  }

  // ----- one node event -----

  /** The child list of p after the event: one more entry for each time p is a parent. */
  lemma Linked(children: map<ID, seq<ID>>, parents: seq<ID>, child: ID, p: ID)
    ensures var cs, cs' := ChildList(children, p), ChildList(LinkParents(children, parents, child), p);
      && |cs'| == |cs| + multiset(parents)[p] && (p !in parents ==> cs' == cs)
      && (cs == [] && multiset(parents)[p] == 1 ==> cs' == [child])
  {
    LinkParentsCounts(children, parents, child, p);
    LinkedOnly(children, parents, child, p);
    assert p !in parents ==> p !in multiset(parents);
  }

  lemma {:induction false} LinkedOnly(children: map<ID, seq<ID>>, parents: seq<ID>, child: ID, p: ID)
    ensures var cs, cs' := ChildList(children, p), ChildList(LinkParents(children, parents, child), p);
      |cs| <= |cs'| && cs'[..|cs|] == cs && forall i :: |cs| <= i < |cs'| ==> cs'[i] == child
  {
    if parents != [] { LinkedOnly(children, parents[..|parents| - 1], child, p); }
  }

  /** A walk of the old index either ends in the new one, or runs to a leaf that becomes a parent once. */
  lemma {:induction false} WalkAfter(children: map<ID, seq<ID>>, parents: seq<ID>, child: ID, from: ID, t: ID, m: nat)
    requires AdvancesTo(children, from, t, m)
    ensures WalkEnds(LinkParents(children, parents, child), from)
      || (WalksPast(children, parents, from, t, m) && ChildList(children, t) == [] && multiset(parents)[t] == 1)
    decreases m
  {
    var children' := LinkParents(children, parents, child);
    Linked(children, parents, child, from);
    var cs, cs' := ChildList(children, from), ChildList(children', from);
    if |cs'| != 1 {
      assert AdvancesTo(children', from, from, 0);
    } else if |cs| == 1 {
      assert from !in multiset(parents);
      WalkAfter(children, parents, child, cs[0], t, m - 1);
      if WalkEnds(children', cs[0]) {
        var to, n: nat :| AdvancesTo(children', cs[0], to, n);
        assert AdvancesTo(children', from, to, n + 1);
      }
    }
  }

  lemma {:induction false} WalkOn(children: map<ID, seq<ID>>, parents: seq<ID>, child: ID, from: ID, t: ID, n: nat)
    requires WalksPast(children, parents, from, t, n) && WalkEnds(LinkParents(children, parents, child), t)
    ensures WalkEnds(LinkParents(children, parents, child), from)
    decreases n
  {
    if n > 0 {
      var children' := LinkParents(children, parents, child);
      Linked(children, parents, child, from);
      var next := ChildList(children, from)[0];
      WalkOn(children, parents, child, next, t, n - 1);
      var to, k: nat :| AdvancesTo(children', next, to, k);
      assert AdvancesTo(children', from, to, k + 1);
    }
  }

  /** Steps that do not end are taken by every walk that ends. */
  lemma {:induction false} WalkContinues(children: map<ID, seq<ID>>, parents: seq<ID>, child: ID, from: ID, t: ID,
                                         n: nat, x: ID, m: nat)
    requires WalksPast(children, parents, from, t, n)
    requires var children' := LinkParents(children, parents, child);
      AdvancesTo(children', from, x, m) && |ChildList(children', t)| == 1
    ensures m >= n && AdvancesTo(LinkParents(children, parents, child), t, x, m - n)
    decreases n
  {
    if n > 0 {
      Linked(children, parents, child, from);
      WalkContinues(children, parents, child, ChildList(children, from)[0], t, n - 1, x, m - 1);
    }
  }

  lemma {:induction false} LoopNeverEnds(children: map<ID, seq<ID>>, parents: seq<ID>, child: ID, t: ID, n: nat, x: ID,
                                         m: nat)
    requires WalksPast(children, parents, child, t, n) && ChildList(children, t) == [] && multiset(parents)[t] == 1
    ensures !AdvancesTo(LinkParents(children, parents, child), child, x, m)
    decreases m
  {
    var children' := LinkParents(children, parents, child);
    Linked(children, parents, child, t);
    if AdvancesTo(children', child, x, m) {
      WalkContinues(children, parents, child, child, t, n, x, m);
      if m > n {
        LoopNeverEnds(children, parents, child, t, n, x, m - n - 1);
      }
    }
  }

  /**
   One node event keeps every forward walk finite exactly when the walk from its ID does not loop back to a parent.
   */
  lemma LinkingKeepsWalksIff(children: map<ID, seq<ID>>, parents: seq<ID>, child: ID)
    requires AllWalksEnd(children)
    ensures AllWalksEnd(LinkParents(children, parents, child)) <==> !LoopsBack(children, parents, child)
  {
    hide AdvancesTo, WalksPast, LinkParents;
    var children' := LinkParents(children, parents, child);
    if LoopsBack(children, parents, child) {
      var t, n: nat :| WalksPast(children, parents, child, t, n) && ChildList(children, t) == []
        && multiset(parents)[t] == 1;
      forall x, m: nat ensures !AdvancesTo(children', child, x, m) {
        LoopNeverEnds(children, parents, child, t, n, x, m);
      }
      assert !WalkEnds(children', child);
    } else {
      ChildEnds(children, parents, child);
      forall from ensures WalkEnds(children', from) {
        assert WalkEnds(children, from);
        var t, m: nat :| AdvancesTo(children, from, t, m);
        WalkAfter(children, parents, child, from, t, m);
        if !WalkEnds(children', from) {
          LeafEnds(children, parents, child, t);
          WalkOn(children, parents, child, from, t, m);
        }
      }
    }
  }

  lemma ChildEnds(children: map<ID, seq<ID>>, parents: seq<ID>, child: ID)
    requires AllWalksEnd(children) && !LoopsBack(children, parents, child)
    ensures WalkEnds(LinkParents(children, parents, child), child)
  {
    hide AdvancesTo, WalksPast, LinkParents;
    assert WalkEnds(children, child);
    var t, m: nat :| AdvancesTo(children, child, t, m);
    WalkAfter(children, parents, child, child, t, m);
  }

  lemma LeafEnds(children: map<ID, seq<ID>>, parents: seq<ID>, child: ID, t: ID)
    requires ChildList(children, t) == [] && multiset(parents)[t] == 1
    requires WalkEnds(LinkParents(children, parents, child), child)
    ensures WalkEnds(LinkParents(children, parents, child), t)
  {
    var children' := LinkParents(children, parents, child);
    Linked(children, parents, child, t);
    var to, k: nat :| AdvancesTo(children', child, to, k);
    assert AdvancesTo(children', t, to, k + 1);
  }

  // ----- over a log -----

  /** The children index after the first k events. */
  function IndexAfter(events: seq<Event>, k: nat): map<ID, seq<ID>>
    requires k <= |events|
  {
    ChildIndex(AppendOrder(events[..k]))
  }

  ghost predicate NeverLoopsBack(events: seq<Event>, k: nat)
    requires k <= |events|
  {
    forall j {:trigger IndexAfter(events, j)} :: 0 <= j < k && events[j].node.Some? ==>
      !LoopsBack(IndexAfter(events, j), events[j].node.value.Parents(), events[j].node.value.id)
  }

  ghost predicate WalksEndThroughout(events: seq<Event>, k: nat)
    requires k <= |events|
  {
    forall j {:trigger IndexAfter(events, j)} :: 0 <= j <= k ==> AllWalksEnd(IndexAfter(events, j))
  }

  lemma IndexNext(events: seq<Event>, k: nat)
    requires k < |events|
    ensures IndexAfter(events, k + 1) ==
      if events[k].node.Some? then
        LinkParents(IndexAfter(events, k), events[k].node.value.Parents(), events[k].node.value.id)
      else IndexAfter(events, k)
  {
    assert events[..k + 1] == events[..k] + [events[k]];
    assert events[..k + 1][..k] == events[..k];
    if events[k].node.Some? { ViewsExtend(AppendOrder(events[..k]), events[k].node.value); }
  }

  lemma EmptyIndex(events: seq<Event>)
    ensures AllWalksEnd(IndexAfter(events, 0))
  {
    assert events[..0] == [];
    forall from ensures WalkEnds(IndexAfter(events, 0), from) {
      assert AdvancesTo(IndexAfter(events, 0), from, from, 0);
    }
  }

  lemma {:induction false} WalksIff(events: seq<Event>, k: nat)
    requires k <= |events|
    ensures WalksEndThroughout(events, k) <==> NeverLoopsBack(events, k)
  {
    hide AllWalksEnd, LoopsBack, IndexAfter, LinkParents, ParentIDs;
    if k == 0 {
      EmptyIndex(events);
    } else {
      var j := k - 1;
      WalksIff(events, j);
      IndexNext(events, j);
      if events[j].node.Some? && AllWalksEnd(IndexAfter(events, j)) {
        LinkingKeepsWalksIff(IndexAfter(events, j), events[j].node.value.Parents(), events[j].node.value.id);
      }
      assert WalksEndThroughout(events, k) <==> WalksEndThroughout(events, j) && AllWalksEnd(IndexAfter(events, k));
    }
  }

  /**
   When replay keeps forward walking finite: after every prefix of an accepted log the walk ends from
   everywhere exactly when no node event loops back to one of its parents.
   */
  lemma ReplayKeepsWalksIff(events: seq<Event>)
    requires Restore(events).Ok?
    ensures Restore(events).value.children == IndexAfter(events, |events|)
    ensures WalksEndThroughout(events, |events|) <==> NeverLoopsBack(events, |events|)
  {
    AcceptedLogs.AcceptedLogs(events);
    ReplayAccepts(events);
    WalksIff(events, |events|);
    assert events[..|events|] == events;
  }

  /** An ID not stored yet has no children to walk along, and is no parent. */
  lemma NewIDDoesNotLoop(events: seq<Event>, s: int, j: nat)
    requires StartsAt(events, s) && DistinctNodeIDs(events) && j < |events| && events[j].node.Some?
    ensures !LoopsBack(IndexAfter(events, j), events[j].node.value.Parents(), events[j].node.value.id)
  {
    var n, ns := events[j].node.value, AppendOrder(events[..j]);
    NotStoredYet(events, j);
    ParentsThere(events, s, j);
    var cs := ChildList(IndexAfter(events, j), n.id);
    if cs != [] { NoEarlyChild(events, s, j, cs[0]); }
    forall to, k: nat | WalksPast(IndexAfter(events, j), n.Parents(), n.id, to, k)
      ensures multiset(n.Parents())[to] != 1
    {
      assert to == n.id;
      assert n.id !in multiset(n.Parents());
    }
  }

  lemma NoEarlyChild(events: seq<Event>, s: int, j: nat, c: ID)
    requires StartsAt(events, s) && DistinctNodeIDs(events) && j < |events| && events[j].node.Some?
    ensures c !in ChildList(IndexAfter(events, j), events[j].node.value.id)
  {
    var n, ns := events[j].node.value, AppendOrder(events[..j]);
    ChildIndexMembers(ns, n.id, c);
    if k :| 0 <= k < |ns| && ns[k].id == c && n.id in ns[k].Parents() {
      assert events == events[..j] + events[j..];
      AppendOrderConcat(events[..j], events[j..]);
      assert AppendOrder(events)[k] == ns[k];
      AcceptedOrder(events, s, k);
      var i :| 0 <= i < k && AppendOrder(events)[i].id == n.id;
      assert ns[i] == AppendOrder(events)[i];
      NotStoredYet(events, j);
      NodeMapKeys(ns);
      assert Before(ns, |ns|, n.id);
    }
  }

  /** With distinct node IDs no event loops back, so every prefix has finite walks. */
  lemma DistinctIDsKeepWalks(events: seq<Event>)
    requires Restore(events).Ok? && DistinctNodeIDs(events)
    ensures WalksEndThroughout(events, |events|)
  {
    hide LoopsBack, IndexAfter, StartsAt, DistinctNodeIDs;
    ReplayKeepsWalksIff(events);
    AcceptedLogs.AcceptedLogs(events);
    var s :| StartsAt(events, s);
    forall j: nat | j < |events| && events[j].node.Some?
      ensures !LoopsBack(IndexAfter(events, j), events[j].node.value.Parents(), events[j].node.value.id)
    {
      NewIDDoesNotLoop(events, s, j);
    }
  }

  // ----- a log that loops -----

  lemma {:induction false} NoEndOnCycle(children: map<ID, seq<ID>>, to: ID, n: nat)
    requires ChildList(children, ID("a")) == [ID("b")] && ChildList(children, ID("b")) == [ID("a")]
    ensures !AdvancesTo(children, ID("a"), to, n)
    decreases n
  {
    if n > 1 { NoEndOnCycle(children, to, n - 2); }
  }

  lemma SampleIndex(a: Node, b: Node, a': Node)
    requires a.id == ID("a") == a'.id && b.id == ID("b")
    requires a.Parents() == [] && b.Parents() == [ID("a")] && a'.Parents() == [ID("b")]
    ensures var children := ChildIndex([a, b, a']);
      ChildList(children, ID("a")) == [ID("b")] && ChildList(children, ID("b")) == [ID("a")]
  {
    hide ChildIndex, AddChild;
    RootIndex(a);
    OneMoreChild([a], b, ID("a"));
    OneMoreChild([a, b], a', ID("b"));
    TwoLinked();
    assert [a] + [b] == [a, b] && [a, b] + [a'] == [a, b, a'];
  }

  lemma TwoLinked()
    ensures var children := AddChild(AddChild(map[], ID("a"), ID("b")), ID("b"), ID("a"));
      ChildList(children, ID("a")) == [ID("b")] && ChildList(children, ID("b")) == [ID("a")]
  {
    var one := AddChild(map[], ID("a"), ID("b"));
    assert ID("a").text[0] != ID("b").text[0];
    assert ChildList(map[], ID("a")) == [] && [] + [ID("b")] == [ID("b")];
    assert ID("b") !in one && [] + [ID("a")] == [ID("a")];
  }

  lemma RootIndex(a: Node)
    requires a.Parents() == []
    ensures ChildIndex([a]) == map[]
  {
    hide ParentIDs;
    assert [a][..0] == [];
  }

  lemma OneMoreChild(ns: seq<Node>, n: Node, p: ID)
    requires n.Parents() == [p]
    ensures ChildIndex(ns + [n]) == AddChild(ChildIndex(ns), p, n.id)
  {
    hide ParentIDs, ChildIndex, AddChild;
    ViewsExtend(ns, n);
    LinkOne(ChildIndex(ns), p, n.id);
  }

  lemma LinkOne(children: map<ID, seq<ID>>, p: ID, child: ID)
    ensures LinkParents(children, [p], child) == AddChild(children, p, child)
  {
    assert [p][..0] == [];
  }

  /** With a repeated node ID an accepted log can close a circle on which forward walking never ends. */
  lemma RepeatedIDsCanLoop() returns (events: seq<Event>)
    ensures Restore(events).Ok? && ID("a") in Restore(events).value.nodes
    ensures !WalkEnds(Restore(events).value.children, ID("a"))
  {
    var a, b, a' := SampleNode(ID("a"), []), SampleNode(ID("b"), [ID("a")]), SampleNode(ID("a"), [ID("b")]);
    var ns := [a, b, a'];
    events := SampleEvents(ns);
    SampleAccepted(ns);
    AcceptedLogs.AcceptedLogs(events);
    ReplayAccepts(events);
    SampleOrder(ns);
    SampleNodeMap(a, b, a');
    ParentIDsOfParentEdges([]);
    ParentIDsOfParentEdges([ID("a")]);
    ParentIDsOfParentEdges([ID("b")]);
    SampleIndex(a, b, a');
    forall to, n: nat ensures !AdvancesTo(ChildIndex(ns), ID("a"), to, n) { NoEndOnCycle(ChildIndex(ns), to, n); }
  }
}
