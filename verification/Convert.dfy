/** Domain values and their protobuf form. */
module Convert {
  import opened Types
  import opened GraphState
  import opened GraphInvariant

  // ----- the generated message types; a missing sub-message is None -----

  datatype PbBlob = PbBlob(mimeType: string, data: seq<Byte>)

  datatype PbPart =
    | PbNoPart
    | PbText(text: string)
    | PbImage(blob: Option<PbBlob>)
    | PbAudio(blob: Option<PbBlob>)
    | PbVideo(blob: Option<PbBlob>)
    | PbFile(blob: Option<PbBlob>, name: string)

  datatype PbToolCall = PbToolCall(id: string, name: string, arguments: string)

  datatype PbMessage =
    | PbNoMessage
    | PbSystem(text: string)
    | PbUser(parts: seq<PbPart>)
    | PbAssistant(parts: seq<PbPart>, toolCalls: seq<PbToolCall>, refusal: string)
    | PbTool(toolCallID: string, name: string, parts: seq<PbPart>, isError: bool)

  datatype PbNode = PbNode(id: string, sessionID: string, timestamp: Option<Time>, message: Option<PbMessage>,
                           parentIDs: seq<string>)

  datatype PbSpawnReference = PbSpawnReference(sessionID: string, nodeID: string)

  datatype PbEndReason = Unspecified | Complete | FailedReason

  datatype PbEvent = PbEvent(
    event: string,
    sessionID: string,
    timestamp: Option<Time>,
    spawnedFrom: Option<PbSpawnReference>,
    node: Option<PbNode>,
    terminalNodeID: string,
    reason: PbEndReason)

  // ----- content parts -----

  function BlobToProto(b: BlobPart): Option<PbBlob> {
    Some(PbBlob(b.mimeType, b.data))
  }

  function BlobFromProto(pb: Option<PbBlob>): BlobPart {
    if pb.Some? then BlobPart(pb.value.mimeType, pb.value.data) else BlobPart("", [])
  }

  function PartToProto(p: ContentPart): PbPart {
    if p.text.Some? then PbText(p.text.value)
    else if p.image.Some? then PbImage(BlobToProto(p.image.value))
    else if p.audio.Some? then PbAudio(BlobToProto(p.audio.value))
    else if p.video.Some? then PbVideo(BlobToProto(p.video.value))
    else if p.file.Some? then PbFile(BlobToProto(p.file.value.blob), p.file.value.name)
    else PbNoPart
  }

  const EMPTY_PART := ContentPart(None, None, None, None, None)

  function PartFromProto(pb: PbPart): ContentPart {
    match pb
    case PbNoPart => EMPTY_PART
    case PbText(t) => EMPTY_PART.(text := Some(t))
    case PbImage(b) => EMPTY_PART.(image := Some(BlobFromProto(b)))
    case PbAudio(b) => EMPTY_PART.(audio := Some(BlobFromProto(b)))
    case PbVideo(b) => EMPTY_PART.(video := Some(BlobFromProto(b)))
    case PbFile(b, name) => EMPTY_PART.(file := Some(FilePart(BlobFromProto(b), name)))
  }

  function PartsToProto(parts: seq<ContentPart>): seq<PbPart> {
    seq(|parts|, i requires 0 <= i < |parts| => PartToProto(parts[i]))
  }

  function PartsFromProto(pbs: seq<PbPart>): seq<ContentPart> {
    seq(|pbs|, i requires 0 <= i < |pbs| => PartFromProto(pbs[i]))
  }

  method ContentPartsToProto(parts: seq<ContentPart>) returns (out: seq<PbPart>)
    ensures out == PartsToProto(parts)
  {
    out := [];
    for i := 0 to |parts|
      invariant |out| == i && forall k :: 0 <= k < i ==> out[k] == PartToProto(parts[k])
    {
      out := out + [PartToProto(parts[i])];
    }
  }

  method ContentPartsFromProto(pbs: seq<PbPart>) returns (out: seq<ContentPart>)
    ensures out == PartsFromProto(pbs)
  {
    out := [];
    for i := 0 to |pbs|
      invariant |out| == i && forall k :: 0 <= k < i ==> out[k] == PartFromProto(pbs[k])
    {
      out := out + [PartFromProto(pbs[i])];
    }
  }

  // ----- messages -----

  function CallsToProto(calls: seq<ToolCall>): seq<PbToolCall> {
    seq(|calls|, i requires 0 <= i < |calls| => PbToolCall(calls[i].id, calls[i].name, calls[i].arguments))
  }

  function CallsFromProto(calls: seq<PbToolCall>): seq<ToolCall> {
    seq(|calls|, i requires 0 <= i < |calls| => ToolCall(calls[i].id, calls[i].name, calls[i].arguments))
  }

  function MessageToProto(m: Message): Option<PbMessage> {
    if m.system.Some? then Some(PbSystem(m.system.value))
    else if m.user.Some? then Some(PbUser(PartsToProto(m.user.value)))
    else if m.assistant.Some? then
      var a := m.assistant.value;
      Some(PbAssistant(PartsToProto(a.parts), CallsToProto(a.toolCalls), a.refusal))
    else if m.tool.Some? then
      var t := m.tool.value;
      Some(PbTool(t.toolCallID, t.name, PartsToProto(t.parts), t.isError))
    else None
  }

  function MessageFromProto(pb: Option<PbMessage>): Message {
    match pb
    case None => NO_MESSAGE
    case Some(PbNoMessage) => NO_MESSAGE
    case Some(PbSystem(t)) => NO_MESSAGE.(system := Some(t))
    case Some(PbUser(parts)) => NO_MESSAGE.(user := Some(PartsFromProto(parts)))
    case Some(PbAssistant(parts, calls, refusal)) =>
      NO_MESSAGE.(assistant := Some(AssistantMessage(PartsFromProto(parts), CallsFromProto(calls), refusal)))
    case Some(PbTool(callID, name, parts, isError)) =>
      NO_MESSAGE.(tool := Some(ToolMessage(callID, name, PartsFromProto(parts), isError)))
  }

  // ----- nodes, reasons, events -----

  function Texts(ids: seq<ID>): seq<string> {
    seq(|ids|, i requires 0 <= i < |ids| => ids[i].text)
  }

  function TextIDs(texts: seq<string>): seq<ID> {
    seq(|texts|, i requires 0 <= i < |texts| => ID(texts[i]))
  }

  function NodeToProto(n: Node): PbNode {
    PbNode(n.id.text, n.sessionID.text, Some(n.timestamp), MessageToProto(n.message), Texts(n.Parents()))
  }

  function NodeFromProto(pb: PbNode): Node {
    Node(ID(pb.id), ID(pb.sessionID), if pb.timestamp.Some? then pb.timestamp.value else 0,
         MessageFromProto(pb.message), "", ParentEdges(TextIDs(pb.parentIDs)), false, None, None, None, None)
  }

  method ParentEdgesFromProto(parentIDs: seq<string>) returns (edges: seq<EdgeRef>)
    ensures edges == ParentEdges(TextIDs(parentIDs))
  {
    edges := [];
    for i := 0 to |parentIDs|
      invariant |edges| == i && forall k :: 0 <= k < i ==> edges[k] == EdgeRef(PARENT, ID(parentIDs[k]), 0.0)
    {
      edges := edges + [EdgeRef(PARENT, ID(parentIDs[i]), 0.0)];
    }
  }

  function EndReasonToProto(r: string): PbEndReason {
    if r == REASON_COMPLETE then Complete else if r == REASON_FAILED then FailedReason else Unspecified
  }

  function EndReasonFromProto(pb: PbEndReason): string {
    match pb
    case Complete => REASON_COMPLETE
    case FailedReason => REASON_FAILED
    case Unspecified => ""
  }

  function SpawnToProto(r: Option<SpawnReference>): Option<PbSpawnReference> {
    if r.Some? then Some(PbSpawnReference(r.value.sessionID.text, r.value.nodeID.text)) else None
  }

  function SpawnFromProto(pb: Option<PbSpawnReference>): Option<SpawnReference> {
    if pb.Some? then Some(SpawnReference(ID(pb.value.sessionID), ID(pb.value.nodeID))) else None
  }

  function EventToProto(e: Event): PbEvent {
    PbEvent(e.name, e.sessionID.text, Some(e.timestamp), SpawnToProto(e.spawnedFrom),
            if e.node.Some? then Some(NodeToProto(e.node.value)) else None,
            e.terminalNodeID.text, EndReasonToProto(e.reason))
  }

  function EventFromProto(pb: PbEvent): Event {
    var e := Event(SessionStart, pb.event, ID(pb.sessionID), if pb.timestamp.Some? then pb.timestamp.value else 0,
                   SpawnFromProto(pb.spawnedFrom),
                   if pb.node.Some? then Some(NodeFromProto(pb.node.value)) else None,
                   ID(pb.terminalNodeID), EndReasonFromProto(pb.reason));
    e.(kind := ClassifyEvent(e))
  }

  // ----- what survives the wire -----

  function FieldCount(p: ContentPart): nat {
    (if p.text.Some? then 1 else 0) + (if p.image.Some? then 1 else 0) + (if p.audio.Some? then 1 else 0)
    + (if p.video.Some? then 1 else 0) + (if p.file.Some? then 1 else 0)
  }

  /** No content part sets more than one field. */
  ghost predicate SingleParts(parts: seq<ContentPart>) {
    forall i :: 0 <= i < |parts| ==> FieldCount(parts[i]) <= 1
  }

  ghost predicate PartsFit(m: Message) {
    && (m.user.Some? ==> SingleParts(m.user.value))
    && (m.assistant.Some? ==> SingleParts(m.assistant.value.parts))
    && (m.tool.Some? ==> SingleParts(m.tool.value.parts))
  }

  lemma PartRoundTrip(p: ContentPart)
    ensures PartFromProto(PartToProto(p)) == p <==> FieldCount(p) <= 1
  {
  }

  lemma PartsRoundTrip(parts: seq<ContentPart>)
    ensures PartsFromProto(PartsToProto(parts)) == parts <==> SingleParts(parts)
  {
    var back := PartsFromProto(PartsToProto(parts));
    forall i | 0 <= i < |parts| ensures back[i] == parts[i] <==> FieldCount(parts[i]) <= 1 {
      PartRoundTrip(parts[i]);
    }
  }

  /** A message survives the wire exactly when it sets at most one subtype and no part sets two fields. */
  lemma MessageRoundTrip(m: Message)
    ensures MessageFromProto(MessageToProto(m)) == m <==> (m == NO_MESSAGE || m.Valid()) && PartsFit(m)
  {
    if m.user.Some? { PartsRoundTrip(m.user.value); }
    if m.assistant.Some? {
      PartsRoundTrip(m.assistant.value.parts);
      assert CallsFromProto(CallsToProto(m.assistant.value.toolCalls)) == m.assistant.value.toolCalls;
    }
    if m.tool.Some? { PartsRoundTrip(m.tool.value.parts); }
  }

  /** The wire keeps a node's identity, time, message and parents, and drops everything else. */
  function WireNode(n: Node): Node {
    PlainNode(n.sessionID, MessageFromProto(MessageToProto(n.message)), n.Parents(), n.id, n.timestamp)
  }

  lemma NodeRoundTrip(n: Node)
    ensures NodeFromProto(NodeToProto(n)) == WireNode(n)
    ensures WireNode(n).Parents() == n.Parents()
    ensures n.message.Valid() && PartsFit(n.message) ==> WireNode(n).message == n.message
    ensures n.message.Valid() ==> WireNode(n).message.RequiresResponse() == n.message.RequiresResponse()
  {
    assert TextIDs(Texts(n.Parents())) == n.Parents();
    ParentIDsOfParentEdges(n.Parents());
    MessageRoundTrip(n.message);
  }

  function WireReason(r: string): string {
    if r == REASON_COMPLETE || r == REASON_FAILED then r else ""
  }

  /** An event comes back with its node projected, an unknown reason dropped, and its kind inferred again. */
  lemma EventRoundTrip(e: Event)
    ensures var node := if e.node.Some? then Some(WireNode(e.node.value)) else None;
      var back := e.(node := node, reason := WireReason(e.reason));
      EventFromProto(EventToProto(e)) == back.(kind := ClassifyEvent(back))
  {
    if e.node.Some? { NodeRoundTrip(e.node.value); }
  }
}
