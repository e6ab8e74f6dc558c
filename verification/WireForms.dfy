/** What the two conversions between events and their wire form do with each field. */
module WireForms {
  import opened Types
  import opened Convert
  import opened GraphInvariant

  /** An absent blob reads as an empty one. */
  ghost predicate SameBlob(pb: Option<PbBlob>, b: BlobPart) {
    if pb.None? then b.mimeType == "" && b.data == []
    else pb.value.mimeType == b.mimeType && pb.value.data == b.data
  }

  /** The wire form is that of the first field set, in the order text, image, audio, video, file. */
  ghost predicate SamePart(pb: PbPart, p: ContentPart) {
    && (p.text.Some? ==> pb.PbText? && pb.text == p.text.value)
    && (p.text.None? && p.image.Some? ==> pb.PbImage? && SameBlob(pb.blob, p.image.value))
    && (p.text.None? && p.image.None? && p.audio.Some? ==> pb.PbAudio? && SameBlob(pb.blob, p.audio.value))
    && (p.text.None? && p.image.None? && p.audio.None? && p.video.Some? ==>
          pb.PbVideo? && SameBlob(pb.blob, p.video.value))
    && (p.text.None? && p.image.None? && p.audio.None? && p.video.None? && p.file.Some? ==>
          pb.PbFile? && SameBlob(pb.blob, p.file.value.blob) && pb.name == p.file.value.name)
    && (p.text.None? && p.image.None? && p.audio.None? && p.video.None? && p.file.None? ==> pb.PbNoPart?)
  }

  ghost predicate SameParts(pbs: seq<PbPart>, parts: seq<ContentPart>) {
    |pbs| == |parts| && forall i :: 0 <= i < |pbs| ==> SamePart(pbs[i], parts[i])
  }

  ghost predicate SameCalls(pbs: seq<PbToolCall>, calls: seq<ToolCall>) {
    |pbs| == |calls| && forall i :: 0 <= i < |pbs| ==>
      pbs[i].id == calls[i].id && pbs[i].name == calls[i].name && pbs[i].arguments == calls[i].arguments
  }

  /** The wire form is that of the first subtype set, in the order system, user, assistant, tool. */
  ghost predicate SameMessage(pb: Option<PbMessage>, m: Message) {
    && (m.system.Some? ==> pb.Some? && pb.value.PbSystem? && pb.value.text == m.system.value)
    && (m.system.None? && m.user.Some? ==> pb.Some? && pb.value.PbUser? && SameParts(pb.value.parts, m.user.value))
    && (m.system.None? && m.user.None? && m.assistant.Some? ==>
          var a := m.assistant.value;
          && pb.Some? && pb.value.PbAssistant? && SameParts(pb.value.parts, a.parts)
          && SameCalls(pb.value.toolCalls, a.toolCalls) && pb.value.refusal == a.refusal)
    && (m.system.None? && m.user.None? && m.assistant.None? && m.tool.Some? ==>
          var t := m.tool.value;
          && pb.Some? && pb.value.PbTool? && pb.value.toolCallID == t.toolCallID && pb.value.name == t.name
          && SameParts(pb.value.parts, t.parts) && pb.value.isError == t.isError)
    && (m.system.None? && m.user.None? && m.assistant.None? && m.tool.None? ==> pb.None? || pb.value.PbNoMessage?)
  }

  /** The parents are all that is sent of the edges, and neither kind nor content nor the archived mark is sent. */
  ghost predicate SameNode(pb: PbNode, n: Node) {
    && pb.id == n.id.text && pb.sessionID == n.sessionID.text
    && (if pb.timestamp.None? then n.timestamp == 0 else pb.timestamp.value == n.timestamp)
    && SameMessage(pb.message, n.message)
    && |pb.parentIDs| == |n.Parents()| && forall i :: 0 <= i < |pb.parentIDs| ==> pb.parentIDs[i] == n.Parents()[i].text
  }

  ghost predicate SameSpawn(pb: Option<PbSpawnReference>, r: Option<SpawnReference>) {
    && (pb.Some? <==> r.Some?)
    && (r.Some? ==> pb.value.sessionID == r.value.sessionID.text && pb.value.nodeID == r.value.nodeID.text)
  }

  ghost predicate SameEvent(pb: PbEvent, e: Event) {
    && pb.event == e.name && pb.sessionID == e.sessionID.text && pb.terminalNodeID == e.terminalNodeID.text
    && (if pb.timestamp.None? then e.timestamp == 0 else pb.timestamp.value == e.timestamp)
    && SameSpawn(pb.spawnedFrom, e.spawnedFrom)
    && (pb.node.Some? <==> e.node.Some?) && (e.node.Some? ==> SameNode(pb.node.value, e.node.value))
    && (pb.reason.Complete? <==> e.reason == "complete") && (pb.reason.FailedReason? <==> e.reason == "failed")
  }

  // ----- sending -----

  lemma PartSent(p: ContentPart)
    ensures SamePart(PartToProto(p), p)
  {
  }

  lemma PartsSent(parts: seq<ContentPart>)
    ensures SameParts(PartsToProto(parts), parts)
  {
    forall i | 0 <= i < |parts| ensures SamePart(PartToProto(parts[i]), parts[i]) { PartSent(parts[i]); }
  }

  lemma MessageSent(m: Message)
    ensures SameMessage(MessageToProto(m), m)
  {
    hide SamePart, PartToProto;
    if m.user.Some? { PartsSent(m.user.value); }
    if m.assistant.Some? { PartsSent(m.assistant.value.parts); }
    if m.tool.Some? { PartsSent(m.tool.value.parts); }
  }

  lemma NodeSent(n: Node)
    ensures SameNode(NodeToProto(n), n) && NodeToProto(n).timestamp.Some?
  {
    hide SameMessage, MessageToProto, ParentIDs;
    MessageSent(n.message);
  }

  /** Each field of an event is sent as the wire field of its own, an unknown reason as unspecified. */
  lemma EventSent(e: Event)
    ensures SameEvent(EventToProto(e), e) && EventToProto(e).timestamp.Some?
  {
    hide SameNode, NodeToProto;
    if e.node.Some? { NodeSent(e.node.value); }
  }

  // ----- receiving -----

  lemma PartReceived(pb: PbPart)
    ensures SamePart(pb, PartFromProto(pb)) && FieldCount(PartFromProto(pb)) <= 1
  {
  }

  lemma PartsReceived(pbs: seq<PbPart>)
    ensures SameParts(pbs, PartsFromProto(pbs)) && SingleParts(PartsFromProto(pbs))
  {
    forall i | 0 <= i < |pbs| ensures SamePart(pbs[i], PartFromProto(pbs[i]))
      && FieldCount(PartFromProto(pbs[i])) <= 1 {
      PartReceived(pbs[i]);
    }
  }

  lemma MessageReceived(pb: Option<PbMessage>)
    ensures SameMessage(pb, MessageFromProto(pb))
      && (MessageFromProto(pb) == NO_MESSAGE || MessageFromProto(pb).Valid())
    ensures PartsFit(MessageFromProto(pb))
  {
    hide SamePart, PartFromProto, SingleParts, PartsFromProto;
    if pb.Some? && (pb.value.PbUser? || pb.value.PbAssistant? || pb.value.PbTool?) { PartsReceived(pb.value.parts); }
  }

  lemma NodeReceived(pb: PbNode)
    ensures SameNode(pb, NodeFromProto(pb))
    ensures var n := NodeFromProto(pb);
      && n.kind == "" && !n.archived && n.memory == None && n.skill == None && n.identity == None && n.sleep == None
      && forall e :: e in n.edges ==> e.kind == PARENT && e.weight == 0.0
  {
    hide SameMessage, MessageFromProto, ParentIDs;
    MessageReceived(pb.message);
    ParentIDsOfParentEdges(TextIDs(pb.parentIDs));
  }

  /** Each wire field is received as the field of its own, an absent time as zero; the kind is told by the fields. */
  lemma EventReceived(pb: PbEvent)
    ensures SameEvent(pb, EventFromProto(pb))
    ensures var e := EventFromProto(pb);
      && (pb.reason.Unspecified? ==> e.reason == "")
      && (e.kind == NodeAppended <==> pb.node.Some?)
      && (e.kind == SessionEnded <==> pb.node.None? && (!pb.reason.Unspecified? || pb.terminalNodeID != ""))
  {
    hide SameNode, NodeFromProto;
    if pb.node.Some? { NodeReceived(pb.node.value); }
    assert EventFromProto(pb).terminalNodeID == NO_ID <==> pb.terminalNodeID == "";
  }
}
