/** What any event log says about the graph restored from it, and why the others are refused, event by event. */
module RestoredLogs {
  import opened Types
  import opened GraphState
  import opened Replay

  // ----- the events by their fields -----

  predicate HasNode(e: Event) {
    e.node.Some?
  }

  predicate IsNode(e: Event, id: ID) {
    HasNode(e) && e.node.value.id == id
  }

  /** An end is told from a start by its reason or its terminal node. */
  predicate IsEnd(e: Event) {
    e.node.None? && (e.reason != "" || e.terminalNodeID != NO_ID)
  }

  predicate IsStart(e: Event) {
    e.node.None? && e.reason == "" && e.terminalNodeID == NO_ID
  }

  ghost predicate Stored(events: seq<Event>, i: nat, id: ID) {
    exists j :: 0 <= j < i && j < |events| && HasNode(events[j]) && events[j].node.value.id == id
  }

  /** A start event before place i opens this session. */
  ghost predicate Opened(events: seq<Event>, i: nat, sid: ID) {
    exists j :: 0 <= j < i && j < |events| && IsStart(events[j]) && events[j].sessionID == sid
  }

  ghost predicate Started(events: seq<Event>, i: nat) {
    exists j :: 0 <= j < i && j < |events| && IsStart(events[j])
  }

  // ----- what is wrong with one event, given those before it -----

  ghost predicate FirstUnknown(events: seq<Event>, i: nat, ids: seq<ID>, p: ID) {
    exists k ::
      && 0 <= k < |ids| && ids[k] == p && !Stored(events, i, p)
      && forall j :: 0 <= j < k ==> Stored(events, i, ids[j])
  }

  ghost predicate NodeFault(events: seq<Event>, i: nat, n: Node, e: Error) {
    if n.id == NO_ID then e == NodeIDRequired(i)
    else if n.sessionID == NO_ID || !Opened(events, i, n.sessionID) then e == NodeSessionIDMismatch(i)
    else e.ParentMissing? && e.index == i && FirstUnknown(events, i, n.Parents(), e.id)
  }

  ghost predicate FaultAt(events: seq<Event>, i: nat, e: Error)
    requires i < |events|
  {
    if HasNode(events[i]) then NodeFault(events, i, events[i].node.value, e)
    else IsStart(events[i]) && Started(events, i) && e == UnexpectedSessionStart(i)
  }

  ghost predicate SoundAt(events: seq<Event>, i: nat)
    requires i < |events|
  {
    forall e :: !FaultAt(events, i, e)
  }

  ghost predicate SoundUpTo(events: seq<Event>, i: nat) {
    i <= |events| && forall j: nat :: j < i ==> SoundAt(events, j)
  }

  // ----- what a sound log says -----

  ghost predicate LastWhere(events: seq<Event>, p: Event -> bool, i: nat) {
    i < |events| && p(events[i]) && forall j :: i < j < |events| ==> !p(events[j])
  }

  ghost predicate NoneWhere(events: seq<Event>, p: Event -> bool) {
    forall j :: 0 <= j < |events| ==> !p(events[j])
  }

  ghost predicate SessionOf(events: seq<Event>, g: State) {
    if NoneWhere(events, IsStart) then
      !g.started && g.session == Session(NO_ID, 0, None) && g.eventNames.sessionStart == "session.start"
    else
      exists i: nat :: LastWhere(events, IsStart, i) && g.started
        && g.session == Session(events[i].sessionID, events[i].timestamp, events[i].spawnedFrom)
        && g.eventNames.sessionStart == events[i].name
  }

  ghost predicate NodesOf(events: seq<Event>, g: State) {
    && (forall id :: id in g.nodes <==> Stored(events, |events|, id))
    && if NoneWhere(events, HasNode) then g.headID == NO_ID && g.eventNames.nodeAppended == "node.appended"
       else
         exists i: nat :: LastWhere(events, HasNode, i)
           && g.headID == events[i].node.value.id && g.eventNames.nodeAppended == events[i].name
  }

  /** The last end event decides, however many there are. */
  ghost predicate EndingOf(events: seq<Event>, g: State) {
    if NoneWhere(events, IsEnd) then
      !g.closed && g.terminalNodeID == NO_ID && g.endReason == "" && g.eventNames.sessionEnded == "session.ended"
    else
      exists i: nat :: LastWhere(events, IsEnd, i) && g.closed && g.terminalNodeID == events[i].terminalNodeID
        && g.endReason == events[i].reason && g.eventNames.sessionEnded == events[i].name
  }

  /** The last node event with an ID decides what is stored under it. */
  ghost predicate NodeOf(events: seq<Event>, g: State, id: ID) {
    id in g.nodes ==>
      exists i: nat :: LastWhere(events, e => IsNode(e, id), i) && events[i].node == Some(g.nodes[id])
  }

  ghost predicate LogOf(events: seq<Event>, g: State) {
    |g.events| == |events| && forall i :: 0 <= i < |events| ==>
      var kind := if HasNode(events[i]) then NodeAppended else if IsStart(events[i]) then SessionStart
        else SessionEnded;
      g.events[i] == events[i].(kind := kind)
  }

  ghost predicate Told(events: seq<Event>, g: State) {
    SessionOf(events, g) && NodesOf(events, g) && EndingOf(events, g) && LogOf(events, g)
  }

  // ----- one more event -----

  lemma LastWhereNext(events: seq<Event>, e: Event, p: Event -> bool, i: nat)
    ensures NoneWhere(events + [e], p) <==> NoneWhere(events, p) && !p(e)
    ensures p(e) ==> (LastWhere(events + [e], p, i) <==> i == |events|)
    ensures !p(e) ==> (LastWhere(events + [e], p, i) <==> LastWhere(events, p, i))
  {
    var all := events + [e];
    assert all[|events|] == e && forall j :: 0 <= j < |events| ==> all[j] == events[j];
  }

  lemma BeforeNext(events: seq<Event>, e: Event, i: nat)
    requires i <= |events|
    ensures forall id :: Stored(events + [e], i, id) <==> Stored(events, i, id)
    ensures forall sid :: Opened(events + [e], i, sid) <==> Opened(events, i, sid)
    ensures Started(events + [e], i) <==> Started(events, i)
  {
    var all := events + [e];
    assert forall j :: 0 <= j < |events| ==> all[j] == events[j];
    forall id ensures Stored(all, i, id) <==> Stored(events, i, id) {
      if Stored(all, i, id) {
        var j :| 0 <= j < i && HasNode(all[j]) && all[j].node.value.id == id;
        assert HasNode(events[j]);
      }
      if Stored(events, i, id) {
        var j :| 0 <= j < i && HasNode(events[j]) && events[j].node.value.id == id;
        assert HasNode(all[j]);
      }
    }
    forall sid ensures Opened(all, i, sid) <==> Opened(events, i, sid) {
      if Opened(all, i, sid) {
        var j :| 0 <= j < i && IsStart(all[j]) && all[j].sessionID == sid;
        assert IsStart(events[j]);
      }
      if Opened(events, i, sid) {
        var j :| 0 <= j < i && IsStart(events[j]) && events[j].sessionID == sid;
        assert IsStart(all[j]);
      }
    }
    if Started(all, i) {
      var j :| 0 <= j < i && IsStart(all[j]);
      assert IsStart(events[j]);
    }
    if Started(events, i) {
      var j :| 0 <= j < i && IsStart(events[j]);
      assert IsStart(all[j]);
    }
  }

  lemma FaultNext(events: seq<Event>, e: Event, i: nat, err: Error)
    requires i < |events|
    ensures FaultAt(events + [e], i, err) <==> FaultAt(events, i, err)
  {
    hide Stored, Opened, Started;
    BeforeNext(events, e, i);
    assert (events + [e])[i] == events[i];
  }

  lemma SoundNext(events: seq<Event>, e: Event)
    ensures SoundUpTo(events + [e], |events|) <==> SoundUpTo(events, |events|)
  {
    hide FaultAt;
    forall i: nat | i < |events| ensures SoundAt(events + [e], i) <==> SoundAt(events, i) {
      forall err ensures FaultAt(events + [e], i, err) <==> FaultAt(events, i, err) { FaultNext(events, e, i, err); }
    }
  }

  // ----- the replay, event by event -----

  ghost predicate FirstOutside(nodes: map<ID, Node>, ids: seq<ID>, k: nat) {
    k < |ids| && ids[k] !in nodes && forall j :: 0 <= j < k ==> ids[j] in nodes
  }

  lemma {:induction false} FirstMissingIs(nodes: map<ID, Node>, ids: seq<ID>)
    ensures FirstMissing(nodes, ids).None? ==> forall j :: 0 <= j < |ids| ==> ids[j] in nodes
    ensures FirstMissing(nodes, ids).Some? ==>
      exists k: nat :: FirstOutside(nodes, ids, k) && ids[k] == FirstMissing(nodes, ids).value
  {
    if ids != [] {
      var m := |ids| - 1;
      FirstMissingIs(nodes, ids[..m]);
      if FirstMissing(nodes, ids[..m]).Some? {
        var k: nat :| FirstOutside(nodes, ids[..m], k) && ids[..m][k] == FirstMissing(nodes, ids[..m]).value;
        assert FirstOutside(nodes, ids, k);
      } else if ids[m] !in nodes {
        assert FirstOutside(nodes, ids, m);
      }
    }
  }

  lemma OneStart(events: seq<Event>, i: nat, j: nat)
    requires SoundUpTo(events, |events|) && LastWhere(events, IsStart, i) && j < |events| && IsStart(events[j])
    ensures i == j
  {
    if j < i {
      assert SoundAt(events, i);
      SecondStart(events, j, i);
    }
  }

  lemma SecondStart(events: seq<Event>, j: nat, i: nat)
    requires j < i < |events| && IsStart(events[j]) && IsStart(events[i])
    ensures FaultAt(events, i, UnexpectedSessionStart(i))
  {
  }

  /** What the state after the first events knows of them. */
  lemma KnownSession(events: seq<Event>, g: State, sid: ID)
    requires SoundUpTo(events, |events|) && SessionOf(events, g)
    ensures Started(events, |events|) <==> g.started
    ensures sid != NO_ID ==> (Opened(events, |events|, sid) <==> g.session.id == sid)
  {
    if !NoneWhere(events, IsStart) {
      var i: nat :| LastWhere(events, IsStart, i) && g.started
        && g.session == Session(events[i].sessionID, events[i].timestamp, events[i].spawnedFrom);
      if Opened(events, |events|, sid) {
        var j :| 0 <= j < |events| && IsStart(events[j]) && events[j].sessionID == sid;
        OneStart(events, i, j);
      }
    }
  }

  /** The last of these events is at fault exactly if the replay refuses it, with the same error. */
  lemma LastFault(events: seq<Event>, e: Event, g: State)
    requires SoundUpTo(events, |events|) && SessionOf(events, g) && NodesOf(events, g)
    ensures var r := ApplyEvent(g, |events|, e);
      if r.Ok? then SoundAt(events + [e], |events|) else FaultAt(events + [e], |events|, r.error)
  {
    hide SoundUpTo, SessionOf, Stored, Opened, Started, ParentIDs;
    var m := |events|;
    BeforeNext(events, e, m);
    KnownSession(events, g, g.session.id);
    assert (events + [e])[m] == e;
    if HasNode(e) {
      var n := e.node.value;
      KnownSession(events, g, n.sessionID);
      FirstMissingIs(g.nodes, n.Parents());
      if FirstMissing(g.nodes, n.Parents()).Some? {
        var k: nat :| FirstOutside(g.nodes, n.Parents(), k)
          && n.Parents()[k] == FirstMissing(g.nodes, n.Parents()).value;
        assert FirstUnknown(events + [e], m, n.Parents(), n.Parents()[k]);
      }
    }
  }

  lemma StoredNext(events: seq<Event>, e: Event)
    ensures forall id :: Stored(events + [e], |events| + 1, id) <==> Stored(events, |events|, id) || IsNode(e, id)
  {
    var all := events + [e];
    assert all[|events|] == e && forall j :: 0 <= j < |events| ==> all[j] == events[j];
    forall id ensures Stored(all, |events| + 1, id) <==> Stored(events, |events|, id) || IsNode(e, id) {
      if Stored(all, |events| + 1, id) && !IsNode(e, id) {
        var j :| 0 <= j < |all| && HasNode(all[j]) && all[j].node.value.id == id;
        assert j < |events| && HasNode(events[j]);
      }
      if Stored(events, |events|, id) {
        var j :| 0 <= j < |events| && HasNode(events[j]) && events[j].node.value.id == id;
        assert HasNode(all[j]);
      }
      if IsNode(e, id) {
        assert HasNode(all[|events|]);
      }
    }
  }

  lemma SessionNext(events: seq<Event>, e: Event, g: State, g': State)
    requires SessionOf(events, g) && ApplyEvent(g, |events|, e) == Ok(g')
    ensures SessionOf(events + [e], g')
  {
    hide FirstMissing, LinkParents, ParentIDs;
    var all := events + [e];
    assert all[|events|] == e;
    LastWhereNext(events, e, IsStart, |events|);
    if !IsStart(e) && !NoneWhere(events, IsStart) {
      var i: nat :| LastWhere(events, IsStart, i) && g.started
        && g.session == Session(events[i].sessionID, events[i].timestamp, events[i].spawnedFrom)
        && g.eventNames.sessionStart == events[i].name;
      LastWhereNext(events, e, IsStart, i);
      assert all[i] == events[i];
    }
  }

  lemma AppliedNode(g: State, i: nat, e: Event)
    requires ApplyEvent(g, i, e).Ok?
    ensures var g' := ApplyEvent(g, i, e).value;
      if HasNode(e) then
        && g'.nodes == g.nodes[e.node.value.id := e.node.value] && g'.headID == e.node.value.id
        && g'.eventNames.nodeAppended == e.name
      else
        g'.nodes == g.nodes && g'.headID == g.headID && g'.eventNames.nodeAppended == g.eventNames.nodeAppended
  {
    hide FirstMissing, LinkParents, ParentIDs;
  }

  lemma NodesNext(events: seq<Event>, e: Event, g: State, g': State)
    requires NodesOf(events, g) && ApplyEvent(g, |events|, e) == Ok(g')
    ensures NodesOf(events + [e], g')
  {
    hide FirstMissing, LinkParents, ParentIDs, Stored;
    var all := events + [e];
    assert all[|events|] == e;
    StoredNext(events, e);
    LastWhereNext(events, e, HasNode, |events|);
    AppliedNode(g, |events|, e);
    assert |all| == |events| + 1;
    forall id ensures id in g'.nodes <==> Stored(all, |all|, id) {
      assert id in g.nodes <==> Stored(events, |events|, id);
      assert Stored(all, |events| + 1, id) <==> Stored(events, |events|, id) || IsNode(e, id);
    }
    if HasNode(e) { assert LastWhere(all, HasNode, |events|); }
    if !HasNode(e) && !NoneWhere(events, HasNode) {
      var i: nat :| LastWhere(events, HasNode, i)
        && g.headID == events[i].node.value.id && g.eventNames.nodeAppended == events[i].name;
      LastWhereNext(events, e, HasNode, i);
      assert all[i] == events[i];
    }
  }

  lemma EndingNext(events: seq<Event>, e: Event, g: State, g': State)
    requires EndingOf(events, g) && ApplyEvent(g, |events|, e) == Ok(g')
    ensures EndingOf(events + [e], g')
  {
    hide FirstMissing, LinkParents, ParentIDs;
    var all := events + [e];
    assert all[|events|] == e;
    LastWhereNext(events, e, IsEnd, |events|);
    if !IsEnd(e) && !NoneWhere(events, IsEnd) {
      var i: nat :| LastWhere(events, IsEnd, i) && g.closed && g.terminalNodeID == events[i].terminalNodeID
        && g.endReason == events[i].reason && g.eventNames.sessionEnded == events[i].name;
      LastWhereNext(events, e, IsEnd, i);
      assert all[i] == events[i];
    }
  }

  lemma LogNext(events: seq<Event>, e: Event, g: State, g': State)
    requires LogOf(events, g) && ApplyEvent(g, |events|, e) == Ok(g')
    ensures LogOf(events + [e], LogEvent(g', e))
  {
    hide FirstMissing, LinkParents, ParentIDs;
    assert (events + [e])[|events|] == e;
  }

  lemma NodeNext(events: seq<Event>, e: Event, g: State, g': State, id: ID)
    requires NodeOf(events, g, id) && ApplyEvent(g, |events|, e) == Ok(g')
    ensures NodeOf(events + [e], g', id)
  {
    hide FirstMissing, LinkParents, ParentIDs;
    var all, p := events + [e], x => IsNode(x, id);
    assert all[|events|] == e;
    LastWhereNext(events, e, p, |events|);
    if id in g'.nodes && !p(e) {
      var i: nat :| LastWhere(events, p, i) && events[i].node == Some(g.nodes[id]);
      LastWhereNext(events, e, p, i);
      assert all[i] == events[i];
    }
  }

  ghost predicate EachNodeOf(events: seq<Event>, g: State) {
    forall id :: NodeOf(events, g, id)
  }

  lemma ToldNext(events: seq<Event>, e: Event, g: State, g': State)
    requires Told(events, g) && EachNodeOf(events, g) && ApplyEvent(g, |events|, e) == Ok(g')
    ensures Told(events + [e], LogEvent(g', e)) && EachNodeOf(events + [e], LogEvent(g', e))
  {
    hide SessionOf, NodesOf, EndingOf, LogOf, ApplyEvent;
    SessionNext(events, e, g, g');
    NodesNext(events, e, g, g');
    EndingNext(events, e, g, g');
    LogNext(events, e, g, g');
    OnlyTheLog(events + [e], g', e);
    forall id ensures NodeOf(events + [e], LogEvent(g', e), id) {
      NodeNext(events, e, g, g', id);
    }
  }

  lemma OnlyTheLog(events: seq<Event>, g: State, e: Event)
    ensures SessionOf(events, g) ==> SessionOf(events, LogEvent(g, e))
    ensures NodesOf(events, g) ==> NodesOf(events, LogEvent(g, e))
    ensures EndingOf(events, g) ==> EndingOf(events, LogEvent(g, e))
  {
    hide LastWhere, NoneWhere, Stored;
  }

  // ----- the whole log -----

  ghost predicate FirstFault(events: seq<Event>, i: nat, e: Error) {
    i < |events| && SoundUpTo(events, i) && FaultAt(events, i, e)
  }

  lemma {:induction false} ReplayTells(events: seq<Event>)
    ensures var r := ReplayAll(events);
      if r.Ok? then SoundUpTo(events, |events|) && Told(events, r.value) && EachNodeOf(events, r.value)
      else exists i: nat :: FirstFault(events, i, r.error)
  {
    hide Told, EachNodeOf, FaultAt, ApplyEvent;
    if events == [] {
      NothingTold();
    } else {
      var m := |events| - 1;
      var before, e := events[..m], events[m];
      assert events == before + [e];
      ReplayTells(before);
      if ReplayAll(before).Ok? {
        var g := ReplayAll(before).value;
        LastFaultOf(before, e, g);
        SoundNext(before, e);
        if ApplyEvent(g, m, e).Ok? {
          ToldNext(before, e, g, ApplyEvent(g, m, e).value);
        } else {
          assert FirstFault(events, m, ApplyEvent(g, m, e).error);
        }
      } else {
        var i: nat :| FirstFault(before, i, ReplayAll(before).error);
        FaultKept(before, e, i, ReplayAll(before).error);
      }
    }
  }

  lemma LastFaultOf(events: seq<Event>, e: Event, g: State)
    requires SoundUpTo(events, |events|) && Told(events, g)
    ensures var r := ApplyEvent(g, |events|, e);
      if r.Ok? then SoundAt(events + [e], |events|) else FaultAt(events + [e], |events|, r.error)
  {
    hide SessionOf, NodesOf, EndingOf, LogOf, SoundUpTo, ApplyEvent, FaultAt, SoundAt;
    LastFault(events, e, g);
  }

  lemma NothingTold()
    ensures Told([], BLANK) && EachNodeOf([], BLANK)
  {
  }

  lemma FaultKept(events: seq<Event>, e: Event, i: nat, err: Error)
    requires FirstFault(events, i, err)
    ensures FirstFault(events + [e], i, err)
  {
    hide FaultAt;
    FaultNext(events, e, i, err);
    forall j: nat | j < i ensures SoundAt(events + [e], j) {
      assert SoundAt(events, j);
      forall x ensures FaultAt(events + [e], j, x) <==> FaultAt(events, j, x) { FaultNext(events, e, j, x); }
    }
  }

  lemma {:induction false} OneFault(events: seq<Event>, i: nat, e: Error, j: nat, f: Error)
    requires FirstFault(events, i, e) && FirstFault(events, j, f)
    ensures i == j && e == f
  {
    hide FaultAt;
    if i < j { NoFaultBefore(events, j, i, e); }
    if j < i { NoFaultBefore(events, i, j, f); }
    SameFault(events, i, e, f);
  }

  lemma NoFaultBefore(events: seq<Event>, i: nat, j: nat, e: Error)
    requires SoundUpTo(events, i) && j < i
    ensures !FaultAt(events, j, e)
  {
    assert SoundAt(events, j);
  }

  lemma SameFault(events: seq<Event>, i: nat, e: Error, f: Error)
    requires i < |events| && FaultAt(events, i, e) && FaultAt(events, i, f)
    ensures e == f
  {
    hide Stored, Opened, Started, ParentIDs;
    if e.ParentMissing? {
      var ids := events[i].node.value.Parents();
      var k :| 0 <= k < |ids| && ids[k] == e.id && !Stored(events, i, e.id)
        && forall j :: 0 <= j < k ==> Stored(events, i, ids[j]);
      var l :| 0 <= l < |ids| && ids[l] == f.id && !Stored(events, i, f.id)
        && forall j :: 0 <= j < l ==> Stored(events, i, ids[j]);
      assert k == l;
    }
  }

  /** A log is refused for its first event at fault, or else for having no start event. */
  lemma RefusedFor(events: seq<Event>, e: Error)
    ensures Restore(events) == Err(e) <==>
      if events == [] then e == GraphNotFound
      else if SoundUpTo(events, |events|) then NoneWhere(events, IsStart) && e == MissingSessionStart
      else exists i: nat :: FirstFault(events, i, e)
  {
    hide FaultAt;
    ReplayTells(events);
    var r := ReplayAll(events);
    if r.Err? {
      var i: nat :| FirstFault(events, i, r.error);
      assert !SoundAt(events, i);
      forall j: nat | FirstFault(events, j, e) ensures e == r.error { OneFault(events, i, r.error, j, e); }
    }
  }

  /** The session and the ending come from the last start and end event, the head and each node from node events. */
  lemma RestoredFrom(events: seq<Event>)
    requires Restore(events).Ok?
    ensures Told(events, Restore(events).value)
    ensures forall id :: NodeOf(events, Restore(events).value, id)
  {
    hide Told, FaultAt;
    ReplayTells(events);
  }
}
