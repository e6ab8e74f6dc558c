/**
 The session graph as a value, with every locked public operation of the source
 as one atomic step. Fresh identifiers and clock readings are arguments.
 */
module GraphState {
  import opened Types

  datatype State = State(
    session: Session,
    eventNames: EventNames,
    nodes: map<ID, Node>,
    children: map<ID, seq<ID>>,
    events: seq<Event>,
    headID: ID,
    terminalNodeID: ID,
    endReason: string,
    started: bool,
    closed: bool)

  function NewGraph(id: ID, spawnedFrom: Option<SpawnReference>, names: EventNames): State {
    State(Session(id, 0, spawnedFrom), names, map[], map[], [], NO_ID, NO_ID, "", false, false)
  }

  // ----- the children index -----

  /** Go reads a missing key as the empty slice. */
  function ChildList(children: map<ID, seq<ID>>, p: ID): seq<ID> {
    if p in children then children[p] else []
  }

  function AddChild(children: map<ID, seq<ID>>, p: ID, child: ID): map<ID, seq<ID>> {
    children[p := ChildList(children, p) + [child]]
  }

  /** Registers `child` once under each of `parents`, in order. */
  function LinkParents(children: map<ID, seq<ID>>, parents: seq<ID>, child: ID): map<ID, seq<ID>> {
    if parents == [] then children
    else AddChild(LinkParents(children, parents[..|parents| - 1], child), parents[|parents| - 1], child)
  }

  // ----- Start, Append, AppendTypedNode, End -----

  datatype Op =
    | StartOp(now: Time)
    | AppendOp(message: Message, parents: seq<ID>, id: ID, now: Time)
    | TypedOp(kind: string, message: Message, extra: seq<EdgeRef>, content: Content, parents: seq<ID>, id: ID,
      now: Time)
    | EndOp(reason: string, now: Time)

  datatype Outcome = Emitted(event: Event) | Appended(node: Node) | Failed(error: Error)

  function StartEvent(session: Session, names: EventNames): Event {
    Event(SessionStart, names.sessionStart, session.id, session.timestamp, session.spawnedFrom, None, NO_ID, "")
  }

  function NodeEvent(sid: ID, names: EventNames, n: Node): Event {
    Event(NodeAppended, names.nodeAppended, sid, n.timestamp, None, Some(n), NO_ID, "")
  }

  function EndEvent(sid: ID, names: EventNames, now: Time, terminal: ID, reason: string): Event {
    Event(SessionEnded, names.sessionEnded, sid, now, None, None, terminal, reason)
  }

  function Start(g: State, now: Time): (State, Outcome) {
    if g.closed then (g, Failed(SessionClosed))
    else if g.started then (g, Failed(SessionAlreadyStarted))
    else
      var session := g.session.(timestamp := now);
      var e := StartEvent(session, g.eventNames);
      (g.(session := session, started := true, events := g.events + [e]), Emitted(e))
  }

  /** Checks references in order and drops repeats; the first bad one decides the error. */
  function ValidateReferences(nodes: map<ID, Node>, ids: seq<ID>): Result<seq<ID>, Error> {
    if ids == [] then Ok([])
    else
      var last := ids[|ids| - 1];
      match ValidateReferences(nodes, ids[..|ids| - 1])
      case Err(e) => Err(e)
      case Ok(before) =>
        if last == NO_ID then Err(NodeReferenceEmpty)
        else if last !in nodes then Err(NodeNotFound(last))
        else if last in before then Ok(before)
        else Ok(before + [last])
  }

  function ParentEdges(parents: seq<ID>): seq<EdgeRef> {
    seq(|parents|, i requires 0 <= i < |parents| => EdgeRef(PARENT, parents[i], 0.0))
  }

  function PlainNode(sid: ID, message: Message, parents: seq<ID>, id: ID, now: Time): Node {
    Node(id, sid, now, message, "", ParentEdges(parents), false, None, None, None, None)
  }

  /** The checks before a node is created, in the source's order. */
  function AppendCheck(g: State, message: Message, parents: seq<ID>): Result<seq<ID>, Error> {
    if g.closed then Err(SessionClosed)
    else if !g.started then Err(SessionNotStarted)
    else if g.eventNames.nodeAppended == "" then Err(MissingEventName)
    else if !message.Valid() then Err(MessageSubtype)
    else if parents == [] && g.nodes != map[] then Err(InvalidRoot)
    else ValidateReferences(g.nodes, parents)
  }

  /** Stores node n, indexes it under its parents, moves the head to it and logs it. */
  function AddNode(g: State, n: Node): State {
    g.(nodes := g.nodes[n.id := n],
       children := LinkParents(g.children, n.Parents(), n.id),
       headID := n.id,
       events := g.events + [NodeEvent(g.session.id, g.eventNames, n)])
  }

  function Append(g: State, message: Message, parents: seq<ID>, id: ID, now: Time): (State, Outcome) {
    match AppendCheck(g, message, parents)
    case Err(e) => (g, Failed(e))
    case Ok(validated) =>
      var n := PlainNode(g.session.id, message, validated, id, now);
      (AddNode(g, n), Appended(n))
  }

  function Decorate(n: Node, kind: string, extra: seq<EdgeRef>, content: Content): Node {
    var typed := n.(kind := kind, edges := n.edges + extra);
    match content
    case NoContent => typed
    case MemoryC(c) => typed.(memory := Some(c))
    case SkillC(c) => typed.(skill := Some(c))
    case IdentityC(c) => typed.(identity := Some(c))
    case SleepC(c) => typed.(sleep := Some(c))
  }

  /** Overwrites the node just appended, in the node table and in the last log entry. */
  function ReplaceLast(g: State, n: Node): State
    requires g.events != []
  {
    var last := |g.events| - 1;
    g.(nodes := g.nodes[n.id := n], events := g.events[last := g.events[last].(node := Some(n))])
  }

  /** The extra edges are attached after the children index was updated, and are not validated. */
  function AppendTyped(g: State, kind: string, message: Message, extra: seq<EdgeRef>, content: Content,
                       parents: seq<ID>, id: ID, now: Time): (State, Outcome) {
    var (g', out) := Append(g, message, parents, id, now);
    if out.Failed? then (g, out)
    else
      var n := Decorate(out.node, kind, extra, content);
      (ReplaceLast(g', n), Appended(n))
  }

  function End(g: State, reason: string, now: Time): (State, Outcome) {
    if reason != REASON_COMPLETE && reason != REASON_FAILED then (g, Failed(InvalidEndReason))
    else if g.closed then (g, Failed(SessionClosed))
    else if !g.started then (g, Failed(SessionNotStarted))
    else
      var e := EndEvent(g.session.id, g.eventNames, now, g.headID, reason);
      (g.(closed := true, terminalNodeID := g.headID, endReason := reason, events := g.events + [e]), Emitted(e))
  }

  function Step(g: State, op: Op): (State, Outcome) {
    match op
    case StartOp(now) => Start(g, now)
    case AppendOp(message, parents, id, now) => Append(g, message, parents, id, now)
    case TypedOp(kind, message, extra, content, parents, id, now) =>
      AppendTyped(g, kind, message, extra, content, parents, id, now)
    case EndOp(reason, now) => End(g, reason, now)
  }

  function Run(g: State, ops: seq<Op>): State {
    if ops == [] then g else Step(Run(g, ops[..|ops| - 1]), ops[|ops| - 1]).0
  }

  // ----- what a run may assume of its environment -----

  ghost predicate NoParentEdge(edges: seq<EdgeRef>) {
    forall e :: e in edges ==> e.kind != PARENT
  }

  ghost predicate Unnamed(edges: seq<EdgeRef>, id: ID) {
    forall e :: e in edges ==> e.nodeID != id
  }

  /** A generated ID: non-empty, not stored, and not named by any edge so far. */
  ghost predicate Fresh(g: State, id: ID) {
    id != NO_ID && id !in g.nodes && forall x :: x in g.nodes ==> Unnamed(g.nodes[x].edges, id)
  }

  /** Generated IDs are fresh, and extra edges are not parent edges. */
  ghost predicate Admissible(g: State, op: Op) {
    match op
    case StartOp(_) => true
    case AppendOp(_, _, id, _) => Fresh(g, id)
    case TypedOp(_, _, extra, _, _, id, _) => Fresh(g, id) && Unnamed(extra, id) && NoParentEdge(extra)
    case EndOp(_, _) => true
  }

  ghost predicate AdmissibleRun(g: State, ops: seq<Op>) {
    forall i :: 0 <= i < |ops| ==> Admissible(Run(g, ops[..i]), ops[i])
  }

  /** The states of a graph made by NewGraph and changed only through its methods. */
  ghost predicate Reachable(g: State) {
    exists id: ID, spawned, names, ops ::
      id != NO_ID && AdmissibleRun(NewGraph(id, spawned, names), ops) && g == Run(NewGraph(id, spawned, names), ops)
  }
}
