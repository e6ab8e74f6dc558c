/** The data types of an SGP session: messages, nodes, edges, sessions and events. */
module Types {

  datatype Option<+T> = None | Some(value: T)

  datatype Result<+T, +E> = Ok(value: T) | Err(error: E)

  /** Identifier of a session or a node; the empty text means "none". */
  datatype ID = ID(text: string)

  const NO_ID := ID("")

  /** An instant, in nanoseconds of UTC. */
  type Time = int

  newtype Byte = b: int | 0 <= b < 256

  datatype BlobPart = BlobPart(mimeType: string, data: seq<Byte>)

  datatype FilePart = FilePart(blob: BlobPart, name: string)

  /** A union of content types; the source asks for exactly one field to be set. */
  datatype ContentPart = ContentPart(
    text: Option<string>,
    image: Option<BlobPart>,
    audio: Option<BlobPart>,
    video: Option<BlobPart>,
    file: Option<FilePart>)

  datatype ToolCall = ToolCall(id: string, name: string, arguments: string)

  datatype AssistantMessage = AssistantMessage(parts: seq<ContentPart>, toolCalls: seq<ToolCall>, refusal: string)

  datatype ToolMessage = ToolMessage(toolCallID: string, name: string, parts: seq<ContentPart>, isError: bool)

  /** A union of message subtypes; a graph accepts a message only when exactly one is set. */
  datatype Message = Message(
    system: Option<string>,
    user: Option<seq<ContentPart>>,
    assistant: Option<AssistantMessage>,
    tool: Option<ToolMessage>)
  {
    predicate Valid() {
      (if system.Some? then 1 else 0) + (if user.Some? then 1 else 0)
      + (if assistant.Some? then 1 else 0) + (if tool.Some? then 1 else 0) == 1
    }

    /** A leaf with such a message is waiting for inference. */
    predicate RequiresResponse() {
      user.Some? || tool.Some?
    }
  }

  const NO_MESSAGE := Message(None, None, None, None)

  /** The name of a relationship between nodes; names outside the list below are allowed. */
  datatype EdgeKind = EdgeKind(name: string)

  const PARENT := EdgeKind("parent")
  const DISTILLED_FROM := EdgeKind("distilled_from")
  const ASSOCIATED_WITH := EdgeKind("associated_with")
  const RECALLED_IN := EdgeKind("recalled_in")
  const EVOLVED_FROM := EdgeKind("evolved_from")
  const PROCEDURAL_OF := EdgeKind("procedural_of")
  const ARCHIVES := EdgeKind("archives")
  const BRANCH_FROM := EdgeKind("branch_from")

  /** A typed reference to another node; weight 0 means unweighted. */
  datatype EdgeRef = EdgeRef(kind: EdgeKind, nodeID: ID, weight: real)

  const KIND_EXPERIENCE := "experience"
  const KIND_MEMORY := "memory"
  const KIND_SKILL := "skill"
  const KIND_IDENTITY := "identity"
  const KIND_SLEEP := "sleep"

  datatype MemoryContent = MemoryContent(summary: string, tags: seq<string>, importance: real)

  datatype SkillContent = SkillContent(name: string, description: string, procedure: string)

  datatype IdentityContent = IdentityContent(traits: seq<string>, values: seq<string>, goals: seq<string>)

  datatype SleepContent = SleepContent(kind: string)

  /** The structured payload a typed node is appended with. */
  datatype Content =
    | NoContent
    | MemoryC(memory: MemoryContent)
    | SkillC(skill: SkillContent)
    | IdentityC(identity: IdentityContent)
    | SleepC(sleep: SleepContent)

  /** An immutable session graph node. */
  datatype Node = Node(
    id: ID,
    sessionID: ID,
    timestamp: Time,
    message: Message,
    kind: string,
    edges: seq<EdgeRef>,
    archived: bool,
    memory: Option<MemoryContent>,
    skill: Option<SkillContent>,
    identity: Option<IdentityContent>,
    sleep: Option<SleepContent>)
  {
    function Parents(): seq<ID> {
      ParentIDs(edges)
    }

    function EffectiveKind(): string {
      if kind == "" then KIND_EXPERIENCE else kind
    }
  }

  /** The targets of the parent edges, in edge order. */
  function ParentIDs(edges: seq<EdgeRef>): seq<ID> {
    if edges == [] then []
    else
      var e := edges[|edges| - 1];
      var before := ParentIDs(edges[..|edges| - 1]);
      if e.kind == PARENT then before + [e.nodeID] else before
  }

  lemma {:induction false} ParentIDsMembers(edges: seq<EdgeRef>, p: ID)
    ensures p in ParentIDs(edges) <==> exists e :: e in edges && e.kind == PARENT && e.nodeID == p
  {
    if edges != [] {
      var m := |edges| - 1;
      ParentIDsMembers(edges[..m], p);
      assert edges == edges[..m] + [edges[m]];
    }
  }

  /** The accumulating loop behind Node.Parents. */
  method CollectParents(edges: seq<EdgeRef>) returns (ids: seq<ID>)
    ensures ids == ParentIDs(edges)
  {
    ids := [];
    for i := 0 to |edges|
      invariant ids == ParentIDs(edges[..i])
    {
      assert edges[..i + 1][..i] == edges[..i];
      if edges[i].kind == PARENT {
        ids := ids + [edges[i].nodeID];
      }
    }
    assert edges[..|edges|] == edges;
  }

  datatype SpawnReference = SpawnReference(sessionID: ID, nodeID: ID)

  datatype Session = Session(id: ID, timestamp: Time, spawnedFrom: Option<SpawnReference>)

  datatype SessionStatus = StatusOpen | StatusClosed

  const REASON_COMPLETE := "complete"
  const REASON_FAILED := "failed"

  datatype EventKind = SessionStart | NodeAppended | SessionEnded

  /** The strings emitted for each event kind. */
  datatype EventNames = EventNames(sessionStart: string, nodeAppended: string, sessionEnded: string)

  const DEFAULT_NAMES := EventNames("session.start", "node.appended", "session.ended")

  datatype Event = Event(
    kind: EventKind,
    name: string,
    sessionID: ID,
    timestamp: Time,
    spawnedFrom: Option<SpawnReference>,
    node: Option<Node>,
    terminalNodeID: ID,
    reason: string)

  /** Kinds are not stored; they are inferred from which fields are present. */
  function ClassifyEvent(e: Event): EventKind {
    if e.node.Some? then NodeAppended
    else if e.reason != "" || e.terminalNodeID != NO_ID then SessionEnded
    else SessionStart
  }

  /** The errors of pkg/sgp. */
  datatype Error =
    | SessionClosed
    | SessionNotStarted
    | SessionAlreadyStarted
    | NodeNotFound(id: ID)
    | InvalidRoot
    | InvalidEndReason
    | MissingEventName
    | MessageSubtype
    | NodeReferenceEmpty
    | GraphNotFound
    | SessionNotFound(id: ID)
    | UnexpectedSessionStart(index: nat)
    | NodeIDRequired(index: nat)
    | NodeSessionIDMismatch(index: nat)
    | ParentMissing(index: nat, id: ID)
    | MissingSessionStart
    | CycleDetected
    | QuadMissing
}
