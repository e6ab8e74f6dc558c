/** Which event logs a replay accepts, and what their graphs are like. */
module AcceptedLogs {
  import opened Types
  import opened GraphState
  import opened GraphInvariant
  import opened Lineage
  import opened GraphTheorems
  import opened Replay

  ghost predicate IsNodeEvent(e: Event) {
    ClassifyEvent(e) == NodeAppended
  }

  ghost predicate AppendedBefore(events: seq<Event>, j: int, id: ID) {
    exists i :: 0 <= i < j && i < |events| && events[i].node.Some? && events[i].node.value.id == id
  }

  /**
   Event s is the only start event, and every node event comes after it, for its session, with parents already
   seen.
   */
  ghost predicate StartsAt(events: seq<Event>, s: int) {
    && 0 <= s < |events| && ClassifyEvent(events[s]) == SessionStart
    && (forall j :: 0 <= j < |events| && j != s ==> ClassifyEvent(events[j]) != SessionStart)
    && forall j :: 0 <= j < |events| && IsNodeEvent(events[j]) ==>
      var n := events[j].node.value;
      && s < j && n.id != NO_ID && n.sessionID != NO_ID && n.sessionID == events[s].sessionID
      && forall p :: p in n.Parents() ==> AppendedBefore(events, j, p)
  }

  ghost predicate OnlyEnds(events: seq<Event>) {
    forall j :: 0 <= j < |events| ==> ClassifyEvent(events[j]) == SessionEnded
  }

  lemma AppendedBeforePrefix(events: seq<Event>, j: int, id: ID)
    requires 0 <= j < |events|
    ensures AppendedBefore(events[..|events| - 1], j, id) == AppendedBefore(events, j, id)
  {
    var before := events[..|events| - 1];
    if AppendedBefore(events, j, id) {
      var i :| 0 <= i < j && events[i].node.Some? && events[i].node.value.id == id;
      assert before[i].node.Some?;
    }
    if AppendedBefore(before, j, id) {
      var i :| 0 <= i < j && i < |before| && before[i].node.Some? && before[i].node.value.id == id;
      assert events[i].node.Some?;
    }
  }

  lemma StartsAtPrefix(events: seq<Event>, s: int)
    requires StartsAt(events, s) && s < |events| - 1
    ensures StartsAt(events[..|events| - 1], s)
  {
    var before := events[..|events| - 1];
    forall j | 0 <= j < |before| && IsNodeEvent(before[j])
      ensures forall p :: p in before[j].node.value.Parents() ==> AppendedBefore(before, j, p)
    {
      assert IsNodeEvent(events[j]);
      forall p | p in events[j].node.value.Parents() ensures AppendedBefore(before, j, p) {
        AppendedBeforePrefix(events, j, p);
      }
    }
  }

  lemma StartsAtExtend(events: seq<Event>, s: int)
    requires events != [] && StartsAt(events[..|events| - 1], s)
    requires var e := events[|events| - 1];
      || ClassifyEvent(e) == SessionEnded
      || (IsNodeEvent(e) && e.node.value.id != NO_ID && e.node.value.sessionID != NO_ID
        && e.node.value.sessionID == events[s].sessionID
          && forall p :: p in e.node.value.Parents() ==> AppendedBefore(events, |events| - 1, p))
    ensures StartsAt(events, s)
  {
    var before := events[..|events| - 1];
    forall j | 0 <= j < |before| && IsNodeEvent(events[j])
      ensures forall p :: p in events[j].node.value.Parents() ==> AppendedBefore(events, j, p)
    {
      assert IsNodeEvent(before[j]);
      forall p | p in events[j].node.value.Parents() ensures AppendedBefore(events, j, p) {
        AppendedBeforePrefix(events, j, p);
      }
    }
  }

  ghost predicate ViewsOf(g: State, ns: seq<Node>) {
    g.nodes == NodeMap(ns) && g.children == ChildIndex(ns) && g.headID == LastID(ns)
  }

  /** What a successful replay has built, in terms of the log alone. */
  ghost predicate Replayed(events: seq<Event>, g: State) {
    && ViewsOf(g, AppendOrder(events))
    && (forall id :: id in g.nodes <==> AppendedBefore(events, |events|, id))
    && (if g.started then exists s :: StartsAt(events, s) && g.session.id == events[s].sessionID
        else OnlyEnds(events) && g.session.id == NO_ID)
  }

  lemma AppendedBeforeLast(events: seq<Event>, id: ID)
    requires events != []
    ensures var m := |events| - 1;
      AppendedBefore(events, |events|, id) <==>
      AppendedBefore(events[..m], m, id) || (events[m].node.Some? && events[m].node.value.id == id)
  {
    var m := |events| - 1;
    AppendedBeforePrefix(events, m, id);
    if AppendedBefore(events, |events|, id) && !(events[m].node.Some? && events[m].node.value.id == id) {
      var i :| 0 <= i < |events| && events[i].node.Some? && events[i].node.value.id == id;
      assert AppendedBefore(events, m, id);
    }
  }

  lemma ReplayedMembers(events: seq<Event>, g: State, g': State)
    requires events != [] && Replayed(events[..|events| - 1], g)
    requires var e := events[|events| - 1];
      g'.nodes == if e.node.Some? then g.nodes[e.node.value.id := e.node.value] else g.nodes
    ensures forall id :: id in g'.nodes <==> AppendedBefore(events, |events|, id)
  {
    forall id ensures id in g'.nodes <==> AppendedBefore(events, |events|, id) {
      AppendedBeforeLast(events, id);
    }
  }

  lemma AppliedViews(g: State, i: nat, e: Event)
    requires ApplyEvent(g, i, e).Ok?
    ensures var g' := ApplyEvent(g, i, e).value;
      match e.node
      case None => g'.nodes == g.nodes && g'.children == g.children && g'.headID == g.headID
      case Some(n) =>
        && g'.nodes == g.nodes[n.id := n] && g'.headID == n.id
        && g'.children == LinkParents(g.children, n.Parents(), n.id)
  {
  }

  lemma ReplayedViews(events: seq<Event>, g: State, g': State)
    requires events != [] && ViewsOf(g, AppendOrder(events[..|events| - 1]))
    requires Ok(g') == ApplyEvent(g, |events| - 1, events[|events| - 1])
    ensures ViewsOf(g', AppendOrder(events))
  {
    var ns := AppendOrder(events[..|events| - 1]);
    AppliedViews(g, |events| - 1, events[|events| - 1]);
    match events[|events| - 1].node
    case None =>
    case Some(n) => ViewsExtend(ns, n);
  }

  lemma NodeEventAccepted(events: seq<Event>, g: State, s: int)
    requires events != [] && Replayed(events[..|events| - 1], g)
    requires StartsAt(events[..|events| - 1], s) && g.started && g.session.id == events[s].sessionID
    requires events[|events| - 1].node.Some?
    ensures ApplyEvent(g, |events| - 1, events[|events| - 1]).Ok? <==> StartsAt(events, s)
  {
    var m := |events| - 1;
    var n := events[m].node.value;
    FirstMissingFinds(g.nodes, n.Parents());
    forall p ensures p in g.nodes <==> AppendedBefore(events, m, p) {
      AppendedBeforePrefix(events, m, p);
    }
    assert IsNodeEvent(events[m]);
    if ApplyEvent(g, m, events[m]).Ok? {
      StartsAtExtend(events, s);
    }
  }

  lemma OnlyStart(events: seq<Event>, s: int, s': int)
    requires events != [] && StartsAt(events[..|events| - 1], s) && StartsAt(events, s')
    ensures s == s'
  {
    assert ClassifyEvent(events[s]) == SessionStart;
  }

  lemma StepAfterStart(events: seq<Event>, g: State, s: int)
    requires events != [] && Replayed(events[..|events| - 1], g)
    requires StartsAt(events[..|events| - 1], s) && g.started && g.session.id == events[s].sessionID
    ensures var m := |events| - 1;
      var r := ApplyEvent(g, m, events[m]);
      if r.Ok? then
        && StartsAt(events, s) && r.value.started && r.value.session.id == g.session.id
        && forall id :: id in r.value.nodes <==> AppendedBefore(events, |events|, id)
      else !OnlyEnds(events) && forall s' :: !StartsAt(events, s')
  {
    var m := |events| - 1;
    assert ClassifyEvent(events[s]) == SessionStart;
    var r := ApplyEvent(g, m, events[m]);
    if events[m].node.Some? {
      NodeEventAccepted(events, g, s);
    }
    if r.Ok? {
      ReplayedMembers(events, g, r.value);
      if events[m].node.None? { StartsAtExtend(events, s); }
    } else {
      forall s' ensures !StartsAt(events, s') {
        if StartsAt(events, s') { OnlyStart(events, s, s'); }
      }
    }
  }

  lemma AfterStart(events: seq<Event>, g: State)
    requires events != [] && Replayed(events[..|events| - 1], g) && g.started
    ensures var m := |events| - 1;
      var r := ApplyEvent(g, m, events[m]);
      && (r.Ok? ==> Replayed(events, LogEvent(r.value, events[m])))
      && (r.Err? ==> !OnlyEnds(events) && forall s :: !StartsAt(events, s))
  {
    var s :| StartsAt(events[..|events| - 1], s) && g.session.id == events[s].sessionID;
    StepAfterStart(events, g, s);
    var r := ApplyEvent(g, |events| - 1, events[|events| - 1]);
    if r.Ok? { ReplayedViews(events, g, r.value); }
  }

  lemma StepBeforeStart(events: seq<Event>, g: State)
    requires events != [] && Replayed(events[..|events| - 1], g) && !g.started
    ensures var m := |events| - 1;
      var r := ApplyEvent(g, m, events[m]);
      && (r.Ok? ==> Replayed(events, LogEvent(r.value, events[m])))
      && (r.Err? ==> !OnlyEnds(events) && forall s :: !StartsAt(events, s))
  {
    var m := |events| - 1;
    assert forall j :: 0 <= j < m ==> events[..m][j] == events[j] && ClassifyEvent(events[j]) == SessionEnded;
    var r := ApplyEvent(g, m, events[m]);
    if r.Ok? {
      ReplayedMembers(events, g, r.value);
      ReplayedViews(events, g, r.value);
      if ClassifyEvent(events[m]) == SessionStart {
        assert StartsAt(events, m);
      }
    } else {
      assert IsNodeEvent(events[m]);
    }
  }

  lemma OnlyEndsPrefix(events: seq<Event>)
    requires events != [] && OnlyEnds(events)
    ensures OnlyEnds(events[..|events| - 1])
  {
  }

  lemma StartsLast(events: seq<Event>)
    requires events != [] && StartsAt(events, |events| - 1)
    ensures OnlyEnds(events[..|events| - 1])
  {
    var before := events[..|events| - 1];
    forall j | 0 <= j < |before| ensures ClassifyEvent(before[j]) == SessionEnded {
      assert IsNodeEvent(events[j]) ==> |events| - 1 < j;
    }
  }

  lemma EndsHaveNoStart(events: seq<Event>, s: int)
    requires OnlyEnds(events)
    ensures !StartsAt(events, s)
  {
  }

  lemma {:induction false} ReplayAccepts(events: seq<Event>)
    ensures ReplayAll(events).Ok? <==> OnlyEnds(events) || exists s :: StartsAt(events, s)
    ensures ReplayAll(events).Ok? ==> Replayed(events, ReplayAll(events).value)
  {
    if events != [] {
      var m := |events| - 1;
      ReplayAccepts(events[..m]);
      var r := ReplayAll(events[..m]);
      if r.Ok? {
        if r.value.started { AfterStart(events, r.value); } else { StepBeforeStart(events, r.value); }
      } else {
        if OnlyEnds(events) { OnlyEndsPrefix(events); }
        forall s ensures !StartsAt(events, s) {
          if StartsAt(events, s) {
            if s < m { StartsAtPrefix(events, s); } else { StartsLast(events); }
          }
        }
      }
    }
  }

  /** A log is accepted exactly when it has one start event and every node event follows it with known parents. */
  lemma AcceptedLogs(events: seq<Event>)
    ensures Restore(events).Ok? <==> exists s :: StartsAt(events, s)
  {
    ReplayAccepts(events);
    if ReplayAll(events).Ok? && !ReplayAll(events).value.started {
      forall s ensures !StartsAt(events, s) { EndsHaveNoStart(events, s); }
    }
  }

  ghost predicate DistinctNodeIDs(events: seq<Event>) {
    var ns := AppendOrder(events);
    forall i, j :: 0 <= i < j < |ns| ==> ns[i].id != ns[j].id
  }

  lemma {:induction false} AppendOrderMembers(events: seq<Event>, id: ID)
    ensures AppendedBefore(events, |events|, id) <==> Before(AppendOrder(events), |AppendOrder(events)|, id)
  {
    if events != [] {
      AppendOrderMembers(events[..|events| - 1], id);
      AppendedBeforeLast(events, id);
      if events[|events| - 1].node.Some? {
        BeforeLast(AppendOrder(events), id);
      }
    }
  }

  /** In an accepted log, each node's parents come earlier in the append order. */
  lemma {:induction false} AcceptedOrder(events: seq<Event>, s: int, k: nat)
    requires StartsAt(events, s) && k < |AppendOrder(events)|
    ensures forall p :: p in AppendOrder(events)[k].Parents() ==> Before(AppendOrder(events), k, p)
    decreases |events|
  {
    var m := |events| - 1;
    var ns := AppendOrder(events);
    var before := AppendOrder(events[..m]);
    if s == m {
      NoNodesNoOrder(events);
    } else {
      StartsAtPrefix(events, s);
      if k < |before| {
        AcceptedOrder(events[..m], s, k);
        forall p | Before(before, k, p) ensures Before(ns, k, p) {
          var j :| 0 <= j < k && before[j].id == p;
          assert ns[j].id == p;
        }
      } else {
        assert IsNodeEvent(events[m]);
        forall p | p in ns[k].Parents() ensures Before(ns, k, p) {
          AppendedBeforePrefix(events, m, p);
          AppendOrderMembers(events[..m], p);
          var j :| 0 <= j < k && before[j].id == p;
          assert ns[j].id == p;
        }
      }
    }
  }

  lemma {:induction false} NoNodesNoOrder(events: seq<Event>)
    requires forall j :: 0 <= j < |events| ==> !IsNodeEvent(events[j])
    ensures AppendOrder(events) == []
  {
    if events != [] {
      assert forall j :: 0 <= j < |events| - 1 ==> events[..|events| - 1][j] == events[j];
      NoNodesNoOrder(events[..|events| - 1]);
      assert !IsNodeEvent(events[|events| - 1]);
    }
  }

  lemma {:induction false} ChildIndexMembers(ns: seq<Node>, p: ID, c: ID)
    ensures c in ChildList(ChildIndex(ns), p) <==> exists k :: 0 <= k < |ns| && ns[k].id == c && p in ns[k].Parents()
  {
    if ns != [] {
      var m := |ns| - 1;
      ChildIndexMembers(ns[..m], p, c);
      LinkParentsMembers(ChildIndex(ns[..m]), ns[m].Parents(), ns[m].id, p, c);
      if exists k :: 0 <= k < m && ns[..m][k].id == c && p in ns[..m][k].Parents() {
        var k :| 0 <= k < m && ns[..m][k].id == c && p in ns[..m][k].Parents();
        assert ns[k].id == c && p in ns[k].Parents();
      }
      if exists k :: 0 <= k < |ns| && ns[k].id == c && p in ns[k].Parents() {
        var k :| 0 <= k < |ns| && ns[k].id == c && p in ns[k].Parents();
        if k < m { assert ns[..m][k].id == c && p in ns[..m][k].Parents(); }
      }
    }
  }

  lemma AcceptedParent(events: seq<Event>, s: int, c: ID, p: ID)
    requires StartsAt(events, s) && DistinctNodeIDs(events)
    requires c in NodeMap(AppendOrder(events)) && p in NodeMap(AppendOrder(events))[c].Parents()
    ensures p in NodeMap(AppendOrder(events)) && Position(AppendOrder(events), p) < Position(AppendOrder(events), c)
  {
    var ns := AppendOrder(events);
    NodeMapKeys(ns);
    var k := Position(ns, c);
    NodeMapLookup(ns, k);
    AcceptedOrder(events, s, k);
    var j :| 0 <= j < k && ns[j].id == p;
    PositionOf(ns, j);
    assert Before(ns, |ns|, p);
  }

  lemma AcceptedParents(events: seq<Event>, s: int)
    requires StartsAt(events, s) && DistinctNodeIDs(events)
    ensures var ns := AppendOrder(events);
      forall c, p :: c in NodeMap(ns) && p in NodeMap(ns)[c].Parents() ==>
        p in NodeMap(ns) && Position(ns, p) < Position(ns, c)
  {
    hide StartsAt, DistinctNodeIDs, NodeMap, Position;
    var ns := AppendOrder(events);
    forall c, p | c in NodeMap(ns) && p in NodeMap(ns)[c].Parents()
      ensures p in NodeMap(ns) && Position(ns, p) < Position(ns, c)
    {
      AcceptedParent(events, s, c, p);
    }
  }

  lemma AcceptedChild(events: seq<Event>, s: int, p: ID, c: ID)
    requires StartsAt(events, s) && DistinctNodeIDs(events)
    requires c in ChildList(ChildIndex(AppendOrder(events)), p)
    ensures Position(AppendOrder(events), p) < Position(AppendOrder(events), c) < |AppendOrder(events)|
  {
    var ns := AppendOrder(events);
    ChildIndexMembers(ns, p, c);
    var k :| 0 <= k < |ns| && ns[k].id == c && p in ns[k].Parents();
    NodeMapLookup(ns, k);
    AcceptedParent(events, s, c, p);
    NodeMapKeys(ns);
  }

  lemma AcceptedMeasures(events: seq<Event>, s: int)
    requires StartsAt(events, s) && DistinctNodeIDs(events)
    ensures var ns := AppendOrder(events);
      && Ranked(NodeMap(ns), Rank(ns)) && Falling(ChildIndex(ns), Height(ns))
  {
    var ns := AppendOrder(events);
    var nodes, children := NodeMap(ns), ChildIndex(ns);
    forall c | c in nodes && nodes[c].Parents() != [] && nodes[c].Parents()[0] in nodes
      ensures Position(ns, nodes[c].Parents()[0]) < Position(ns, c)
    {
      AcceptedParent(events, s, c, nodes[c].Parents()[0]);
    }
    forall p | |ChildList(children, p)| == 1
      ensures |ns| - Position(ns, ChildList(children, p)[0]) < |ns| - Position(ns, p)
    {
      AcceptedChild(events, s, p, ChildList(children, p)[0]);
    }
  }

  /**
   The graph of an accepted log with distinct node IDs is parent-closed, and every parent was appended strictly
   earlier; so the parent relation has no cycle, and both walks end.
   */
  lemma AcceptedGraph(events: seq<Event>, id: ID) returns (l: seq<Node>, to: ID, n: nat)
    requires Restore(events).Ok? && DistinctNodeIDs(events) && id in Restore(events).value.nodes
    ensures IsLineage(Restore(events).value.nodes, id, l)
    ensures AdvancesTo(Restore(events).value.children, id, to, n)
    ensures forall c, p :: c in Restore(events).value.nodes && p in Restore(events).value.nodes[c].Parents() ==>
              && p in Restore(events).value.nodes
              && Position(AppendOrder(events), p) < Position(AppendOrder(events), c)
  {
    hide StartsAt, IsLineage, AdvancesTo, NodeMap, ChildIndex, AppendOrder;
    hide ReplayAll, Position, Rank, Height, Ranked, Falling;
    AcceptedLogs(events);
    ReplayAccepts(events);
    var s :| StartsAt(events, s);
    AcceptedMeasures(events, s);
    var ns := AppendOrder(events);
    AcceptedParents(events, s);
    l := LineageExists(NodeMap(ns), id, Rank(ns));
    to, n := AdvanceExists(ChildIndex(ns), id, Height(ns));
  }

  function SampleNode(id: ID, parents: seq<ID>): Node {
    PlainNode(ID("s"), Message(Some("m"), None, None, None), parents, id, 0)
  }

  function SampleEvents(ns: seq<Node>): seq<Event> {
    [StartEvent(Session(ID("s"), 0, None), DEFAULT_NAMES)] + NodeEvents(ID("s"), DEFAULT_NAMES, ns)
  }

  lemma SampleOrder(ns: seq<Node>)
    ensures AppendOrder(SampleEvents(ns)) == ns
  {
    var start := [StartEvent(Session(ID("s"), 0, None), DEFAULT_NAMES)];
    AppendOrderConcat(start, NodeEvents(ID("s"), DEFAULT_NAMES, ns));
    AppendOrderNodeEvents(ID("s"), DEFAULT_NAMES, ns);
    assert start[..0] == [];
  }

  /** With a repeated node ID an accepted log can close a parent cycle, on which no lineage exists. */
  lemma RepeatedIDsCanCycle() returns (events: seq<Event>)
    ensures Restore(events).Ok? && ID("a") in Restore(events).value.nodes
    ensures forall l :: !IsLineage(Restore(events).value.nodes, ID("a"), l)
  {
    var a, b, a' := SampleNode(ID("a"), []), SampleNode(ID("b"), [ID("a")]), SampleNode(ID("a"), [ID("b")]);
    var ns := [a, b, a'];
    events := SampleEvents(ns);
    SampleAccepted(ns);
    AcceptedLogs(events);
    ReplayAccepts(events);
    SampleOrder(ns);
    SampleNodeMap(a, b, a');
    var nodes := NodeMap(ns);
    ParentIDsOfParentEdges([ID("a")]);
    ParentIDsOfParentEdges([ID("b")]);
    forall l ensures !IsLineage(nodes, ID("a"), l) { NoLineageOnCycle(nodes, l); }
  }

  lemma SampleNodeMap(a: Node, b: Node, a': Node)
    requires a'.id == ID("a") && b.id == ID("b")
    ensures var m := NodeMap([a, b, a']); ID("a") in m && ID("b") in m && m[ID("a")] == a' && m[ID("b")] == b
  {
    assert [a, b, a'][..2] == [a, b];
    assert [a, b][..1] == [a];
  }

  lemma SampleAccepted(ns: seq<Node>)
    requires ns == [SampleNode(ID("a"), []), SampleNode(ID("b"), [ID("a")]), SampleNode(ID("a"), [ID("b")])]
    ensures StartsAt(SampleEvents(ns), 0)
  {
    var events := SampleEvents(ns);
    ParentIDsOfParentEdges([ID("a")]);
    ParentIDsOfParentEdges([ID("b")]);
    ParentIDsOfParentEdges([]);
    assert events[1].node.value.id == ID("a") && events[2].node.value.id == ID("b");
    forall j | 0 <= j < |events| && IsNodeEvent(events[j])
      ensures forall p :: p in events[j].node.value.Parents() ==> AppendedBefore(events, j, p)
    {
      assert j == 1 || j == 2 || j == 3;
    }
  }

  lemma {:induction false} NoLineageOnCycle(nodes: map<ID, Node>, l: seq<Node>)
    requires ID("a") in nodes && ID("b") in nodes && nodes[ID("a")].Parents() == [ID("b")]
    requires nodes[ID("b")].Parents() == [ID("a")]
    ensures !IsLineage(nodes, ID("a"), l)
    decreases |l|
  {
    if IsLineage(nodes, ID("a"), l) {
      var l' := l[..|l| - 1];
      assert IsLineage(nodes, ID("b"), l');
      NoLineageOnCycle(nodes, l'[..|l'| - 1]);
    }
  }
}
