/** The order of messages in a harness session, and the prompt made from them. */
module Transcript {
  import opened Types
  import opened Chain

  const TELEPORT := "teleport"

  /** Whose turn it is after the messages so far; `done` calls of an assistant message are answered. */
  datatype Turn = Start | Idle | Waiting | Answering(calls: seq<ToolCall>, done: nat) | Broken

  function FirstTeleport(calls: seq<ToolCall>): (i: nat)
    ensures i <= |calls| && (i < |calls| ==> calls[i].name == TELEPORT)
    ensures forall k :: 0 <= k < i ==> calls[k].name != TELEPORT
  {
    if calls == [] || calls[0].name == TELEPORT then 0 else 1 + FirstTeleport(calls[1..])
  }

  predicate Teleports(calls: seq<ToolCall>) {
    FirstTeleport(calls) < |calls|
  }

  /** t reports that the hand-off asked for by the first teleport call could not be started. */
  predicate IsSpawnError(calls: seq<ToolCall>, t: ToolMessage) {
    Teleports(calls) && t.toolCallID == calls[FirstTeleport(calls)].id && t.name == TELEPORT && t.isError
  }

  /** t answers call c; an executed teleport never reports an error. */
  predicate IsAnswer(c: ToolCall, t: ToolMessage) {
    t.toolCallID == c.id && t.name == c.name && (c.name == TELEPORT ==> !t.isError)
  }

  function Read(t: Turn, m: Message): Turn {
    match t
    case Start => if m.system.Some? then Idle else Broken
    case Idle => if m.user.Some? then Waiting else Broken
    case Waiting =>
      if m.user.Some? then Waiting
      else if m.assistant.None? then Broken
      else if m.assistant.value.toolCalls == [] then Idle
      else Answering(m.assistant.value.toolCalls, 0)
    case Answering(calls, done) =>
      if m.tool.None? || done >= |calls| then Broken
      else if done == 0 && IsSpawnError(calls, m.tool.value) then Waiting
      else if !IsAnswer(calls[done], m.tool.value) then Broken
      else if done + 1 == |calls| then Waiting
      else Answering(calls, done + 1)
    case Broken => Broken
  }

  function ReadAll(ns: seq<Node>): Turn {
    if ns == [] then Start else Read(ReadAll(ns[..|ns| - 1]), ns[|ns| - 1].message)
  }

  lemma ReadLonger(ns: seq<Node>, n: Node)
    ensures ReadAll(ns + [n]) == Read(ReadAll(ns), n.message)
  {
    assert (ns + [n])[..|ns|] == ns;
  }

  // ----- what an unbroken transcript means -----

  function CallsAt(ns: seq<Node>, k: nat): seq<ToolCall>
    requires k < |ns|
  {
    if ns[k].message.assistant.Some? then ns[k].message.assistant.value.toolCalls else []
  }

  ghost predicate AnsweredAt(ns: seq<Node>, k: nat, j: nat)
    requires k < |ns| && j < |CallsAt(ns, k)|
  {
    k + 1 + j < |ns| && ns[k + 1 + j].message.tool.Some?
      && IsAnswer(CallsAt(ns, k)[j], ns[k + 1 + j].message.tool.value)
  }

  ghost predicate AnsweredUpTo(ns: seq<Node>, k: nat, done: nat)
    requires k < |ns| && done <= |CallsAt(ns, k)|
  {
    forall j: nat :: j < done ==> AnsweredAt(ns, k, j)
  }

  ghost predicate NoToolAt(ns: seq<Node>, k: nat) {
    k < |ns| ==> ns[k].message.tool.None?
  }

  /** Every call of node k is answered, in order, and then no further result follows. */
  ghost predicate Answered(ns: seq<Node>, k: nat)
    requires k < |ns|
  {
    && AnsweredUpTo(ns, k, |CallsAt(ns, k)|)
    && NoToolAt(ns, k + 1 + |CallsAt(ns, k)|)
  }

  /** Node k asked for a hand-off, and its only result says that it failed. */
  ghost predicate HandOffFailed(ns: seq<Node>, k: nat)
    requires k < |ns|
  {
    && k + 1 < |ns| && ns[k + 1].message.tool.Some? && IsSpawnError(CallsAt(ns, k), ns[k + 1].message.tool.value)
    && NoToolAt(ns, k + 2)
  }

  /** Node k is the last node with calls, and the calls answered so far were answered in order. */
  ghost predicate InProgress(ns: seq<Node>, k: nat)
    requires k < |ns|
  {
    && ReadAll(ns) == Answering(CallsAt(ns, k), |ns| - 1 - k)
    && |ns| - 1 - k < |CallsAt(ns, k)|
    && AnsweredUpTo(ns, k, |ns| - 1 - k)
  }

  ghost predicate BlockAt(ns: seq<Node>, k: nat)
    requires k < |ns|
  {
    || InProgress(ns, k)
    || (Answered(ns, k) && (k + 1 + |CallsAt(ns, k)| == |ns| ==> ReadAll(ns) == Waiting))
    || (HandOffFailed(ns, k) && (k + 2 == |ns| ==> ReadAll(ns) == Waiting))
  }

  lemma AnswerKept(ns: seq<Node>, n: Node, k: nat, j: nat)
    requires k < |ns| && j < |CallsAt(ns, k)| && AnsweredAt(ns, k, j)
    ensures AnsweredAt(ns + [n], k, j)
  {
  }

  lemma OneMoreAnswer(ns: seq<Node>, n: Node, k: nat, done: nat)
    requires k < |ns| && done < |CallsAt(ns, k)| && k + 1 + done == |ns| && AnsweredUpTo(ns, k, done)
    requires n.message.tool.Some? && IsAnswer(CallsAt(ns, k)[done], n.message.tool.value)
    ensures CallsAt(ns + [n], k) == CallsAt(ns, k) && AnsweredUpTo(ns + [n], k, done + 1)
  {
    forall j: nat | j < done + 1 ensures AnsweredAt(ns + [n], k, j) {
      if j < done { AnswerKept(ns, n, k, j); }
    }
  }

  lemma AnsweringReads(calls: seq<ToolCall>, done: nat, m: Message)
    requires done < |calls| && Read(Answering(calls, done), m) != Broken
    ensures m.tool.Some?
    ensures !(done == 0 && IsSpawnError(calls, m.tool.value)) ==>
      IsAnswer(calls[done], m.tool.value)
      && Read(Answering(calls, done), m) == if done + 1 == |calls| then Waiting else Answering(calls, done + 1)
  {
  }

  lemma ProgressExtends(ns: seq<Node>, n: Node, k: nat, calls: seq<ToolCall>, done: nat, t: Turn)
    requires k < |ns| && calls == CallsAt(ns, k) && done == |ns| - 1 - k < |calls| && AnsweredUpTo(ns, k, done)
    requires t == Answering(calls, done) && ReadAll(ns + [n]) == Read(t, n.message) && Read(t, n.message) != Broken
    ensures BlockAt(ns + [n], k)
  {
    var all := ns + [n];
    AnsweringReads(calls, done, n.message);
    if done == 0 && IsSpawnError(calls, n.message.tool.value) {
      assert HandOffFailed(all, k);
    } else {
      OneMoreAnswer(ns, n, k, done);
      if done + 1 < |calls| {
        assert InProgress(all, k);
      } else {
        assert Answered(all, k);
      }
    }
  }

  lemma AnsweredExtends(ns: seq<Node>, n: Node, k: nat)
    requires k < |ns| && Answered(ns, k) && CallsAt(ns, k) != []
    requires k + 1 + |CallsAt(ns, k)| == |ns| ==> n.message.tool.None?
    ensures Answered(ns + [n], k) && k + 1 + |CallsAt(ns, k)| <= |ns|
  {
    var all, calls := ns + [n], CallsAt(ns, k);
    assert CallsAt(all, k) == calls;
    forall j: nat | j < |calls| ensures AnsweredAt(all, k, j) { AnswerKept(ns, n, k, j); }
    assert AnsweredAt(ns, k, |calls| - 1);
  }

  lemma FailedExtends(ns: seq<Node>, n: Node, k: nat)
    requires k < |ns| && HandOffFailed(ns, k)
    requires k + 2 == |ns| ==> n.message.tool.None?
    ensures HandOffFailed(ns + [n], k) && k + 2 <= |ns|
  {
    assert CallsAt(ns + [n], k) == CallsAt(ns, k) && (ns + [n])[k + 1] == ns[k + 1];
  }

  lemma WaitingReads(t: Turn, m: Message)
    requires t == Waiting && Read(t, m) != Broken && m.Valid()
    ensures m.tool.None?
  {
  }

  lemma BlockExtends(ns: seq<Node>, n: Node, k: nat, t: Turn)
    requires k < |ns| && BlockAt(ns, k) && CallsAt(ns, k) != []
    requires t == ReadAll(ns) && ReadAll(ns + [n]) == Read(t, n.message) && Read(t, n.message) != Broken
    requires n.message.Valid()
    ensures BlockAt(ns + [n], k)
  {
    if t == Waiting { WaitingReads(t, n.message); }
    if InProgress(ns, k) {
      ProgressExtends(ns, n, k, CallsAt(ns, k), |ns| - 1 - k, t);
    } else if Answered(ns, k) && (k + 1 + |CallsAt(ns, k)| == |ns| ==> t == Waiting) {
      AnsweredExtends(ns, n, k);
    } else {
      FailedExtends(ns, n, k);
    }
  }

  /**
   Every node with tool calls heads a block: answered in order, a failed hand-off, or still in progress at the end.
   */
  lemma {:induction false} Blocks(ns: seq<Node>, k: nat)
    requires k < |ns| && ReadAll(ns) != Broken && CallsAt(ns, k) != []
    requires forall i :: k <= i < |ns| ==> ns[i].message.Valid()
    ensures BlockAt(ns, k)
  {
    var m := |ns| - 1;
    if k < m {
      Blocks(ns[..m], k);
      assert ns[..m] + [ns[m]] == ns;
      BlockExtends(ns[..m], ns[m], k, ReadAll(ns[..m]));
    } else {
      assert InProgress(ns, k);
    }
  }

  /**
   When no call is outstanding, each node with tool calls is followed by the results of its calls in order
   and by no other result, or by exactly one error result for a teleport whose spawn failed.
   */
  lemma SettledTranscript(ns: seq<Node>, k: nat)
    requires k < |ns| && CallsAt(ns, k) != [] && forall i :: k <= i < |ns| ==> ns[i].message.Valid()
    requires ReadAll(ns) == Idle || ReadAll(ns) == Waiting
    ensures Answered(ns, k) || HandOffFailed(ns, k)
  {
    Blocks(ns, k);
  }

  // ----- the prompt -----

  /** A call as the model sees it, without its ID. */
  datatype ChatCall = ChatCall(name: string, arguments: string)

  datatype ChatMessage = ChatMessage(role: string, content: string, calls: seq<ChatCall>)

  function PartsText(parts: seq<ContentPart>): string {
    if parts == [] then ""
    else
      var last := parts[|parts| - 1].text;
      PartsText(parts[..|parts| - 1]) + if last.Some? then last.value else ""
  }

  function ChatCalls(calls: seq<ToolCall>): seq<ChatCall> {
    seq(|calls|, i requires 0 <= i < |calls| => ChatCall(calls[i].name, calls[i].arguments))
  }

  /** What a node contributes to the prompt; memory, skill, identity, sleep and archived nodes contribute nothing. */
  function Render(n: Node): seq<ChatMessage> {
    var m := n.message;
    if n.EffectiveKind() != KIND_EXPERIENCE || n.archived then []
    else if m.system.Some? then [ChatMessage("system", m.system.value, [])]
    else if m.user.Some? then [ChatMessage("user", PartsText(m.user.value), [])]
    else if m.assistant.Some? && m.assistant.value.toolCalls != [] then
      [ChatMessage("assistant", "", ChatCalls(m.assistant.value.toolCalls))]
    else if m.assistant.Some? then [ChatMessage("assistant", PartsText(m.assistant.value.parts), [])]
    else if m.tool.Some? then [ChatMessage("tool", PartsText(m.tool.value.parts), [])]
    else []
  }

  function Prompt(nodes: seq<Node>): seq<ChatMessage> {
    if nodes == [] then [] else Prompt(nodes[..|nodes| - 1]) + Render(nodes[|nodes| - 1])
  }

  method ToChatMessages(nodes: seq<Node>) returns (msgs: seq<ChatMessage>)
    ensures msgs == Prompt(nodes)
  {
    msgs := [];
    for i := 0 to |nodes|
      invariant msgs == Prompt(nodes[..i])
    {
      assert nodes[..i + 1][..i] == nodes[..i];
      msgs := msgs + Render(nodes[i]);
    }
    assert nodes[..|nodes|] == nodes;
  }

  /** The text of a list of parts is that of its text parts, one after the other. */
  lemma {:induction false} TextIsJoined(a: seq<ContentPart>, p: ContentPart, b: seq<ContentPart>)
    ensures PartsText([]) == ""
    ensures PartsText([p]) == if p.text.Some? then p.text.value else ""
    ensures PartsText(a + b) == PartsText(a) + PartsText(b)
  {
    assert [p][..0] == [];
    if b == [] {
      assert a + b == a;
    } else {
      assert (a + b)[..|a + b| - 1] == a + b[..|b| - 1];
      TextIsJoined(a, p, b[..|b| - 1]);
    }
  }

  /** c shows message m: its role, its text, and for an assistant with calls the calls in order and no text. */
  ghost predicate Speaks(c: ChatMessage, m: Message) {
    && (m.system.Some? ==> c.role == "system" && c.content == m.system.value && c.calls == [])
    && (m.user.Some? ==> c.role == "user" && c.content == PartsText(m.user.value) && c.calls == [])
    && (m.tool.Some? ==> c.role == "tool" && c.content == PartsText(m.tool.value.parts) && c.calls == [])
    && (m.assistant.Some? ==> c.role == "assistant" && |c.calls| == |m.assistant.value.toolCalls|)
    && (m.assistant.Some? ==> forall i :: 0 <= i < |c.calls| ==>
          && c.calls[i].name == m.assistant.value.toolCalls[i].name
          && c.calls[i].arguments == m.assistant.value.toolCalls[i].arguments)
    && (m.assistant.Some? ==>
          c.content == if m.assistant.value.toolCalls == [] then PartsText(m.assistant.value.parts) else "")
  }

  /** A node that is archived or of another kind is left out of the prompt, any other shows its one message. */
  lemma Rendered(n: Node)
    requires n.message.Valid()
    ensures n.archived || (n.kind != "" && n.kind != "experience") ==> Render(n) == []
    ensures !n.archived && (n.kind == "" || n.kind == "experience") ==>
      |Render(n)| == 1 && Speaks(Render(n)[0], n.message)
  {
  }

  /** The prompt for a chain leaves no message out, and shows each one in its place. */
  lemma {:induction false} PromptCoversChain(sid: ID, ns: seq<Node>, k: nat)
    requires IsChain(sid, ns)
    ensures |Prompt(ns)| == |ns|
    ensures k < |ns| ==> Speaks(Prompt(ns)[k], ns[k].message)
  {
    hide Speaks, Render;
    if ns != [] {
      var m := |ns| - 1;
      ChainPrefix(sid, ns, m);
      PromptCoversChain(sid, ns[..m], k);
      assert Link(sid, ns, m);
      Rendered(ns[m]);
    }
  }
}
