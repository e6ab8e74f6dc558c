/** What each call of the graph does, field by field and error by error. */
module CallEffects {
  import opened Types
  import opened Sequences
  import opened GraphState
  import opened GraphInvariant
  import opened GraphTheorems
  import opened EventFields

  // ----- Start and End -----

  /** Starting sets the session's timestamp to the clock, logs one start event and touches nothing else. */
  lemma StartEffect(g: State, now: Time)
    ensures var (g', out) := Step(g, StartOp(now));
      && (g.closed ==> g' == g && out == Failed(SessionClosed))
      && (!g.closed && g.started ==> g' == g && out == Failed(SessionAlreadyStarted))
      && (!g.closed && !g.started ==>
            && out.Emitted? && g'.started && !g'.closed && g'.events == g.events + [out.event]
            && g'.session.id == g.session.id && g'.session.timestamp == now
            && g'.session.spawnedFrom == g.session.spawnedFrom
            && Opens(out.event, g'.session, g.eventNames.sessionStart)
            && g' == g.(session := g'.session, started := true, events := g'.events))
  {
  }

  /** Ending keeps the head as terminal node and the reason, logs one end event and touches nothing else. */
  lemma EndEffect(g: State, reason: string, now: Time)
    ensures var (g', out) := Step(g, EndOp(reason, now));
      var known := reason == "complete" || reason == "failed";
      && (!known ==> g' == g && out == Failed(InvalidEndReason))
      && (known && g.closed ==> g' == g && out == Failed(SessionClosed))
      && (known && !g.closed && !g.started ==> g' == g && out == Failed(SessionNotStarted))
      && (known && !g.closed && g.started ==>
            && out.Emitted? && g'.closed && g'.terminalNodeID == g.headID && g'.endReason == reason
            && g'.events == g.events + [out.event]
            && Ends(out.event, g.session.id, now, g.headID, reason, g.eventNames.sessionEnded)
            && g' == g.(closed := true, terminalNodeID := g.headID, endReason := reason, events := g'.events))
  {
  }

  // ----- references -----

  predicate BadReference(nodes: map<ID, Node>, p: ID) {
    p == NO_ID || p !in nodes
  }

  /** vs lists the members of ids once each, by their first occurrence. */
  ghost predicate FirstOccurrences(vs: seq<ID>, ids: seq<ID>) {
    && Distinct(vs) && (forall id :: id in vs <==> id in ids)
    && forall i, j, k :: 0 <= i < j < |vs| && 0 <= k < |ids| && ids[k] == vs[j] ==> vs[i] in ids[..k]
  }

  /** The error speaks of the first bad reference. */
  ghost predicate FirstBad(nodes: map<ID, Node>, ids: seq<ID>, e: Error) {
    exists k :: 0 <= k < |ids| && BadReference(nodes, ids[k])
      && (forall i :: 0 <= i < k ==> !BadReference(nodes, ids[i]))
      && e == if ids[k] == NO_ID then NodeReferenceEmpty else NodeNotFound(ids[k])
  }

  lemma {:induction false} ReferencesDecided(nodes: map<ID, Node>, ids: seq<ID>)
    ensures var r := ValidateReferences(nodes, ids);
      && (r.Ok? <==> forall i :: 0 <= i < |ids| ==> !BadReference(nodes, ids[i]))
      && (r.Ok? ==> FirstOccurrences(r.value, ids))
      && (r.Err? ==> FirstBad(nodes, ids, r.error))
  {
    hide FirstBad, FirstOccurrences;
    if ids == [] {
      NoReferences();
    } else {
      var before, last := ids[..|ids| - 1], ids[|ids| - 1];
      assert ids == before + [last];
      ReferencesDecided(nodes, before);
      var r := ValidateReferences(nodes, before);
      if r.Err? {
        FirstBadLonger(nodes, before, last, r.error);
      } else if BadReference(nodes, last) {
        LastIsBad(nodes, before, last);
      } else {
        FirstOccurrencesLonger(r.value, before, last);
      }
    }
  }

  lemma NoReferences()
    ensures FirstOccurrences([], [])
  {
  }

  lemma LastIsBad(nodes: map<ID, Node>, ids: seq<ID>, id: ID)
    requires BadReference(nodes, id) && forall i :: 0 <= i < |ids| ==> !BadReference(nodes, ids[i])
    ensures FirstBad(nodes, ids + [id], if id == NO_ID then NodeReferenceEmpty else NodeNotFound(id))
  {
    var all := ids + [id];
    assert all[|ids|] == id && forall i :: 0 <= i < |ids| ==> all[i] == ids[i];
  }

  lemma FirstBadLonger(nodes: map<ID, Node>, ids: seq<ID>, id: ID, e: Error)
    requires FirstBad(nodes, ids, e)
    ensures FirstBad(nodes, ids + [id], e) && exists i :: 0 <= i < |ids| && BadReference(nodes, ids[i])
  {
    var all := ids + [id];
    assert forall i :: 0 <= i < |ids| ==> all[i] == ids[i];
  }

  lemma FirstOccurrencesLonger(vs: seq<ID>, ids: seq<ID>, id: ID)
    requires FirstOccurrences(vs, ids)
    ensures id in vs <==> id in ids
    ensures FirstOccurrences(if id in vs then vs else vs + [id], ids + [id])
  {
    var vs', all := if id in vs then vs else vs + [id], ids + [id];
    forall i, j, k | 0 <= i < j < |vs'| && 0 <= k < |all| && all[k] == vs'[j] ensures vs'[i] in all[..k] {
      if k < |ids| {
        assert all[..k] == ids[..k] && vs'[j] in ids && vs'[j] in vs;
      } else {
        assert all[..k] == ids && vs[i] in vs;
      }
    }
  }

  // ----- Append and AppendTypedNode -----

  /** The checks of an append, in order, and what each of them reports. */
  ghost predicate AppendFails(g: State, message: Message, parents: seq<ID>, e: Error) {
    var subtypes := (if message.system.Some? then 1 else 0) + (if message.user.Some? then 1 else 0)
                    + (if message.assistant.Some? then 1 else 0) + (if message.tool.Some? then 1 else 0);
    if g.closed then e == SessionClosed
    else if !g.started then e == SessionNotStarted
    else if g.eventNames.nodeAppended == "" then e == MissingEventName
    else if subtypes != 1 then e == MessageSubtype
    else if parents == [] && g.nodes != map[] then e == InvalidRoot
    else FirstBad(g.nodes, parents, e)
  }

  /** The first edges lead to vs, as parents and without weight. */
  ghost predicate LeadTo(edges: seq<EdgeRef>, vs: seq<ID>) {
    |vs| <= |edges| && forall i :: 0 <= i < |vs| ==>
      edges[i].kind == PARENT && edges[i].nodeID == vs[i] && edges[i].weight == 0.0
  }

  /** The edges: one parent edge without weight for each parent, by first occurrence, and then the extra ones. */
  ghost predicate EdgesOf(n: Node, parents: seq<ID>, extra: seq<EdgeRef>) {
    exists vs :: FirstOccurrences(vs, parents) && LeadTo(n.edges, vs) && n.edges[|vs|..] == extra
  }

  /** The appended node: kind, edges and payload as given, everything else from the call and the session. */
  ghost predicate MadeFrom(n: Node, g: State, id: ID, now: Time, message: Message, parents: seq<ID>,
                           kind: string, extra: seq<EdgeRef>, content: Content)
  {
    && n.id == id && n.sessionID == g.session.id && n.timestamp == now && n.message == message
    && n.kind == kind && !n.archived && EdgesOf(n, parents, extra)
    && n.memory == (if content.MemoryC? then Some(content.memory) else None)
    && n.skill == (if content.SkillC? then Some(content.skill) else None)
    && n.identity == (if content.IdentityC? then Some(content.identity) else None)
    && n.sleep == (if content.SleepC? then Some(content.sleep) else None)
  }

  /** Table, head and log hold this same node; each parent lists it last, once; everything else is as it was. */
  ghost predicate Holding(g': State, g: State, n: Node, parents: seq<ID>) {
    && n.id in g'.nodes && g'.nodes == g.nodes[n.id := n] && g'.headID == n.id
    && |g'.events| == |g.events| + 1 && g'.events[..|g.events|] == g.events
    && Carries(g'.events[|g.events|], g.session.id, n, g.eventNames.nodeAppended)
    && (forall p :: ChildList(g'.children, p) == ChildList(g.children, p) + if p in parents then [n.id] else [])
    && g' == g.(nodes := g'.nodes, headID := n.id, events := g'.events, children := g'.children)
  }

  lemma AppendRefused(g: State, message: Message, parents: seq<ID>)
    ensures var r := AppendCheck(g, message, parents);
      if r.Ok? then FirstOccurrences(r.value, parents) else AppendFails(g, message, parents, r.error)
    ensures AppendCheck(g, message, parents).Ok? ==> forall e :: !AppendFails(g, message, parents, e)
  {
    ReferencesDecided(g.nodes, parents);
  }

  lemma PlainEffect(g: State, message: Message, parents: seq<ID>, id: ID, now: Time)
    ensures var (g', out) := Append(g, message, parents, id, now);
      if out.Failed? then g' == g && AppendFails(g, message, parents, out.error)
      else
        && out.Appended? && MadeFrom(out.node, g, id, now, message, parents, "", [], NoContent)
        && Holding(g', g, out.node, parents) && g'.events == g.events + [g'.events[|g.events|]]
        && forall e :: !AppendFails(g, message, parents, e)
  {
    hide AppendCheck, AppendFails, FirstOccurrences, LinkParents;
    AppendRefused(g, message, parents);
    var check := AppendCheck(g, message, parents);
    if check.Ok? {
      var n := Append(g, message, parents, id, now).1.node;
      assert LeadTo(n.edges, check.value) && n.edges[|check.value|..] == [];
      ParentIDsOfParentEdges(check.value);
      OnceEach(check.value, parents);
      forall p ensures ChildList(LinkParents(g.children, check.value, id), p)
                       == ChildList(g.children, p) + if p in parents then [id] else [] {
        LinkDistinctParents(g.children, check.value, id, p);
      }
    }
  }

  lemma OnceEach(vs: seq<ID>, ids: seq<ID>)
    requires FirstOccurrences(vs, ids)
    ensures Distinct(vs) && forall id :: id in vs <==> id in ids
  {
  }

  /** A plain append fails with the first complaint and changes nothing, or adds a node without kind and content. */
  lemma AppendEffect(g: State, message: Message, parents: seq<ID>, id: ID, now: Time)
    ensures var (g', out) := Step(g, AppendOp(message, parents, id, now));
      if out.Failed? then g' == g && AppendFails(g, message, parents, out.error)
      else
        && out.Appended? && MadeFrom(out.node, g, id, now, message, parents, "", [], NoContent)
        && Holding(g', g, out.node, parents) && forall e :: !AppendFails(g, message, parents, e)
  {
    hide AppendFails, MadeFrom, Holding;
    PlainEffect(g, message, parents, id, now);
  }

  /** A typed append does the same with its kind, its extra edges and its one payload, in table, log and result. */
  lemma TypedEffect(g: State, op: Op)
    requires op.TypedOp?
    ensures var (g', out) := Step(g, op);
      if out.Failed? then g' == g && AppendFails(g, op.message, op.parents, out.error)
      else
        && out.Appended?
        && MadeFrom(out.node, g, op.id, op.now, op.message, op.parents, op.kind, op.extra, op.content)
        && Holding(g', g, out.node, op.parents) && forall e :: !AppendFails(g, op.message, op.parents, e)
  {
    hide AppendFails, EdgesOf, Append, LinkParents;
    PlainEffect(g, op.message, op.parents, op.id, op.now);
    var (g1, plain) := Append(g, op.message, op.parents, op.id, op.now);
    if plain.Appended? {
      var n := Step(g, op).1.node;
      TypedEdges(plain.node, n, op.parents, op.extra);
    }
  }

  lemma TypedEdges(plain: Node, n: Node, parents: seq<ID>, extra: seq<EdgeRef>)
    requires EdgesOf(plain, parents, []) && n.edges == plain.edges + extra
    ensures EdgesOf(n, parents, extra)
  {
    hide FirstOccurrences;
    var vs :| FirstOccurrences(vs, parents) && LeadTo(plain.edges, vs) && plain.edges[|vs|..] == [];
    assert |plain.edges| == |vs|;
    assert n.edges[|vs|..] == extra;
  }
}
