/**
 The example harness: a bounded inference loop over a session graph, written through to a store, and
 handed to another process by a teleport.
 */
module MathHarness {
  import opened Types
  import opened GraphInvariant
  import opened Lineage
  import opened CallEffects
  import opened SessionGraph
  import opened Quads
  import opened CayleyStore
  import opened WriteThrough
  import opened Chain
  import opened Transcript

  const MAX_TOOL_STEPS := 10

  // ----- everything outside the harness -----

  datatype Request = Request(name: string, arguments: string)

  /** A model reply; `content` matters only without calls. */
  datatype Reply = NoReply | Reply(content: string, calls: seq<Request>)

  datatype ToolOutcome = ToolOutcome(output: string, success: bool)

  /** A call out of the harness, with what the store held at that moment. */
  datatype Call =
    | Asked(prompt: seq<ChatMessage>, quads: set<Quad>)
    | Ran(name: string, arguments: string, quads: set<Quad>)
    | Spawned(sid: ID, quads: set<Quad>)

  /** The model, the tools, the process launcher, the clock and the ID generator: call i has the i-th result. */
  class World {
    const ids: nat -> ID
    const clock: nat -> Time
    const replies: nat -> Reply
    const outcomes: nat -> ToolOutcome
    const spawnErrors: nat -> Option<string>
    var used: nat
    ghost var log: seq<Call>

    constructor (ids: nat -> ID, clock: nat -> Time, replies: nat -> Reply, outcomes: nat -> ToolOutcome,
                 spawnErrors: nat -> Option<string>)
      ensures this.ids == ids && this.clock == clock && this.replies == replies
      ensures this.outcomes == outcomes && this.spawnErrors == spawnErrors
      ensures used == 0 && log == []
    {
      this.ids, this.clock, this.replies, this.outcomes, this.spawnErrors := ids, clock, replies, outcomes, spawnErrors;
      used, log := 0, [];
    }

    /** The IDs still to come are plain, pairwise distinct and unknown to the store. */
    ghost predicate Supplies(quads: set<Quad>)
      reads this
    {
      && (forall i: nat :: i >= used ==> Plain(ids(i)) && UnusedNode(quads, ids(i)))
      && forall i: nat, j: nat :: used <= i < j ==> ids(i) != ids(j)
    }

    method NewID() returns (id: ID)
      modifies this`used
      ensures id == ids(old(used)) && used == old(used) + 1
    {
      id := ids(used);
      used := used + 1;
    }

    method Now() returns (t: Time)
      modifies this`used
      ensures t == clock(old(used)) && used == old(used) + 1
    {
      t := clock(used);
      used := used + 1;
    }

    method Ask(prompt: seq<ChatMessage>, ghost quads: set<Quad>) returns (reply: Reply)
      modifies this
      ensures reply == replies(old(used)) && used == old(used) + 1 && log == old(log) + [Asked(prompt, quads)]
    {
      reply := replies(used);
      used := used + 1;
      log := log + [Asked(prompt, quads)];
    }

    method Execute(name: string, arguments: string, ghost quads: set<Quad>) returns (outcome: ToolOutcome)
      modifies this
      ensures outcome == outcomes(old(used)) && used == old(used) + 1 && log == old(log) + [Ran(name, arguments, quads)]
    {
      outcome := outcomes(used);
      used := used + 1;
      log := log + [Ran(name, arguments, quads)];
    }

    method Spawn(sid: ID, ghost quads: set<Quad>) returns (err: Option<string>)
      modifies this
      ensures err == spawnErrors(old(used)) && used == old(used) + 1 && log == old(log) + [Spawned(sid, quads)]
    {
      err := spawnErrors(used);
      used := used + 1;
      log := log + [Spawned(sid, quads)];
    }
  }

  // ----- what every call out of the harness finds -----

  /** The store holds all of ns, and it is the model's turn, or this tool call is next, or a hand-off is due. */
  ghost predicate CallFinds(call: Call, sess: Session, ns: seq<Node>) {
    ns != [] && Stored(call.quads, sess, ns)
    && match call
       case Asked(prompt, _) => prompt == Prompt(ns) && ReadAll(ns) == Waiting
       case Ran(name, arguments, _) => NextCall(ns, name, arguments)
       case Spawned(sid, _) => sid == sess.id && HandOffDue(ns)
  }

  /** The next call to answer has this name and these arguments. */
  ghost predicate NextCall(ns: seq<Node>, name: string, arguments: string) {
    var t := ReadAll(ns);
    t.Answering? && t.done < |t.calls| && t.calls[t.done].name == name && t.calls[t.done].arguments == arguments
  }

  /** The last message asks for a teleport, and none of its calls is answered. */
  ghost predicate HandOffDue(ns: seq<Node>) {
    var t := ReadAll(ns);
    t.Answering? && t.done == 0 && Teleports(t.calls)
  }

  ghost predicate CallGood(call: Call, sess: Session) {
    exists ns :: CallFinds(call, sess, ns)
  }

  ghost predicate LogGood(log: seq<Call>, sess: Session) {
    forall i :: 0 <= i < |log| ==> CallGood(log[i], sess)
  }

  lemma LogGrows(log: seq<Call>, call: Call, sess: Session, ns: seq<Node>)
    requires LogGood(log, sess) && CallFinds(call, sess, ns)
    ensures LogGood(log + [call], sess)
  {
    assert CallGood(call, sess);
  }

  /** How many times the model was asked. */
  ghost function Asks(log: seq<Call>): nat {
    if log == [] then 0 else Asks(log[..|log| - 1]) + if log[|log| - 1].Asked? then 1 else 0
  }

  lemma AsksLonger(log: seq<Call>, call: Call)
    ensures Asks(log + [call]) == Asks(log) + if call.Asked? then 1 else 0
  {
    assert (log + [call])[..|log|] == log;
  }

  // ----- messages -----

  function Digits(n: nat): string {
    if n < 10 then ["0123456789"[n]] else Digits(n / 10) + ["0123456789"[n % 10]]
  }

  function CallID(callSeq: nat, i: nat): string {
    "tc-" + Digits(callSeq) + "-" + Digits(i)
  }

  function TextPart(text: string): ContentPart {
    ContentPart(Some(text), None, None, None, None)
  }

  function UserText(text: string): Message {
    Message(None, Some([TextPart(text)]), None, None)
  }

  function AssistantText(text: string): Message {
    Message(None, None, Some(AssistantMessage([TextPart(text)], [], "")), None)
  }

  function AssistantCalls(calls: seq<ToolCall>): Message {
    Message(None, None, Some(AssistantMessage([], calls, "")), None)
  }

  function ToolResult(callID: string, name: string, text: string, isError: bool): Message {
    Message(None, None, None, Some(ToolMessage(callID, name, [TextPart(text)], isError)))
  }

  function CallsFor(callSeq: nat, requests: seq<Request>): seq<ToolCall> {
    seq(|requests|, i requires 0 <= i < |requests| => ToolCall(CallID(callSeq, i), requests[i].name,
      requests[i].arguments))
  }

  // ----- what is recorded, field by field -----

  ghost predicate OneText(parts: seq<ContentPart>, text: string) {
    && |parts| == 1 && parts[0].text == Some(text)
    && parts[0].image == None && parts[0].audio == None && parts[0].video == None && parts[0].file == None
  }

  ghost predicate UserSays(m: Message, text: string) {
    m.user.Some? && OneText(m.user.value, text) && m.system == None && m.assistant == None && m.tool == None
  }

  ghost predicate AssistantSays(m: Message, text: string) {
    && m.assistant.Some? && m.system == None && m.user == None && m.tool == None
    && OneText(m.assistant.value.parts, text) && m.assistant.value.toolCalls == [] && m.assistant.value.refusal == ""
  }

  /** One call for each request, with its name and its arguments. */
  ghost predicate AssistantAsks(m: Message, callSeq: nat, requests: seq<Request>) {
    && m.assistant.Some? && m.system == None && m.user == None && m.tool == None
    && m.assistant.value.parts == [] && m.assistant.value.refusal == "" && |m.assistant.value.toolCalls| == |requests|
    && forall i :: 0 <= i < |requests| ==>
         var c := m.assistant.value.toolCalls[i];
         c.id == CallID(callSeq, i) && c.name == requests[i].name && c.arguments == requests[i].arguments
  }

  /** The result of the call with this ID and name. */
  ghost predicate Reports(m: Message, callID: string, name: string, text: string, isError: bool) {
    && m.tool.Some? && m.system == None && m.user == None && m.assistant == None
    && m.tool.value.toolCallID == callID && m.tool.value.name == name && m.tool.value.isError == isError
    && OneText(m.tool.value.parts, text)
  }

  lemma MessagesSay(text: string, callID: string, name: string, isError: bool, callSeq: nat, requests: seq<Request>)
    ensures UserSays(UserText(text), text) && AssistantSays(AssistantText(text), text)
    ensures AssistantAsks(AssistantCalls(CallsFor(callSeq, requests)), callSeq, requests)
    ensures Reports(ToolResult(callID, name, text, isError), callID, name, text, isError)
  {
  }

  // ----- call IDs -----

  /** The number that decimal digits stand for. */
  function Decimal(s: string): nat {
    if s == [] then 0
    else
      var d := s[|s| - 1];
      10 * Decimal(s[..|s| - 1]) + if '0' <= d <= '9' then d as int - '0' as int else 0
  }

  lemma {:induction false} DigitsAreDecimal(n: nat)
    ensures Digits(n) != "" && Decimal(Digits(n)) == n && forall c :: c in Digits(n) ==> '0' <= c <= '9'
  {
    var last := ["0123456789"[n % 10]];
    assert last[..0] == [] && Decimal(last) == n % 10;
    if n >= 10 {
      DigitsAreDecimal(n / 10);
      assert Digits(n) == Digits(n / 10) + last;
      assert (Digits(n / 10) + last)[..|Digits(n / 10)|] == Digits(n / 10);
    }
  }

  /** The call of the i-th request in round callSeq has this ID, which no other call of the process has. */
  lemma CallIDsDiffer(callSeq: nat, i: nat, callSeq': nat, i': nat)
    ensures CallID(callSeq, i) == "tc-" + Digits(callSeq) + "-" + Digits(i)
    ensures CallID(callSeq, i) == CallID(callSeq', i') ==> callSeq == callSeq' && i == i'
  {
    hide Digits, Decimal;
    DigitsAreDecimal(callSeq);
    DigitsAreDecimal(callSeq');
    DigitsAreDecimal(i);
    DigitsAreDecimal(i');
    IDTail(callSeq, i);
    IDTail(callSeq', i');
    if CallID(callSeq, i) == CallID(callSeq', i') {
      SameSplit(Digits(callSeq), Digits(i), Digits(callSeq'), Digits(i'));
    }
  }

  lemma IDTail(callSeq: nat, i: nat)
    ensures |CallID(callSeq, i)| > 3 && CallID(callSeq, i)[3..] == Digits(callSeq) + "-" + Digits(i)
  {
    hide Digits;
    var tail := Digits(callSeq) + "-" + Digits(i);
    assert CallID(callSeq, i) == "tc-" + tail;
  }

  lemma FirstDash(a: string, b: string)
    requires '-' !in a
    ensures var s := a + "-" + b;
      s[|a|] == '-' && (forall i :: 0 <= i < |a| ==> s[i] != '-') && s[..|a|] == a && s[|a| + 1..] == b
  {
    var s := a + "-" + b;
    forall i | 0 <= i < |a| ensures s[i] != '-' { assert s[i] == a[i] && a[i] in a; }
  }

  lemma SameSplit(a: string, b: string, a': string, b': string)
    requires a + "-" + b == a' + "-" + b' && '-' !in a && '-' !in a'
    ensures a == a' && b == b'
  {
    FirstDash(a, b);
    FirstDash(a', b');
  }

  // ----- what a round with the model does -----

  /** The i-th request is the first for a teleport. */
  ghost predicate FirstHandOff(requests: seq<Request>, i: nat) {
    i < |requests| && requests[i].name == "teleport" && forall k :: 0 <= k < i ==> requests[k].name != "teleport"
  }

  /** A tool was run with this name and these arguments, and its outcome at step `at` recorded under the call's ID. */
  ghost predicate ToolRan(w: World, at: nat, call: Call, m: Message, callID: string, name: string, arguments: string) {
    && call.Ran? && call.name == name && call.arguments == arguments
    && Reports(m, callID, name, w.outcomes(at).output, !w.outcomes(at).success)
  }

  /** All requests were run in order, none of them more than once. */
  ghost predicate ToolsRan(w: World, used: nat, callSeq: nat, requests: seq<Request>, results: seq<Node>,
                           log: seq<Call>)
  {
    && |results| == |requests| == |log|
    && forall i :: 0 <= i < |requests| ==>
         ToolRan(w, used + 3 * i, log[i], results[i].message, CallID(callSeq, i), requests[i].name,
           requests[i].arguments)
  }

  /** The hand-off was tried once; it is over, or its failure is recorded as the result of the first teleport call. */
  ghost predicate HandOffTried(w: World, used: nat, callSeq: nat, requests: seq<Request>, results: seq<Node>,
                               log: seq<Call>, gone: bool, used': nat)
  {
    var e := w.spawnErrors(used);
    && |log| == 1 && log[0].Spawned? && gone == e.None?
    && (e.None? ==> results == [] && used' == used + 1)
    && (e.Some? ==> |results| == 1 && used' == used + 3)
    && (e.Some? ==> exists i :: FirstHandOff(requests, i)
                      && Reports(results[0].message, CallID(callSeq, i), "teleport", e.value, true))
  }

  /** The requests were recorded as calls; then a teleport among them was tried, or else all of them were run. */
  ghost predicate CallsDone(w: World, used: nat, callSeq: nat, requests: seq<Request>, added: seq<Node>, log: seq<Call>,
                            gone: bool, used': nat)
  {
    && added != [] && AssistantAsks(added[0].message, callSeq, requests)
    && if exists i :: FirstHandOff(requests, i) then
         HandOffTried(w, used + 2, callSeq, requests, added[1..], log, gone, used')
       else !gone && used' == used + 2 + 3 * |requests| && ToolsRan(w, used + 2, callSeq, requests, added[1..], log)
  }

  /** Where a round begins: results used, calls numbered, nodes and log entries so far. */
  datatype Mark = Mark(used: nat, callSeq: nat, size: nat, asked: nat)

  /** One round, decided by the reply: nothing, the text, or the calls are recorded. */
  ghost predicate Round(w: World, from: Mark, to: Mark, added: seq<Node>, log: seq<Call>, ending: Option<Ending>) {
    var reply := w.replies(from.used);
    && log != [] && log[0].Asked?
    && match reply
       case NoReply =>
         ending == Some(ModelFailed) && added == [] && |log| == 1 && to.used == from.used + 1
           && to.callSeq == from.callSeq
       case Reply(content, calls) =>
         if calls == [] then
           && ending == Some(Said(content)) && |added| == 1 && AssistantSays(added[0].message, content)
           && |log| == 1 && to.used == from.used + 3 && to.callSeq == from.callSeq
         else
           && to.callSeq == from.callSeq + 1 && ending in {None, Some(Teleported)}
           && CallsDone(w, from.used + 1, to.callSeq, calls, added, log[1..], ending.Some?, to.used)
  }

  ghost predicate Within(m: Mark, ns: seq<Node>, log: seq<Call>) {
    m.size <= |ns| && m.asked <= |log|
  }

  /** Round k of the loop. */
  ghost predicate RoundAt(w: World, marks: seq<Mark>, k: nat, ns: seq<Node>, log: seq<Call>, ending: Option<Ending>)
    requires k + 1 < |marks|
  {
    && Within(marks[k], ns, log) && Within(marks[k + 1], ns, log)
    && marks[k].size <= marks[k + 1].size && marks[k].asked <= marks[k + 1].asked
    && Round(w, marks[k], marks[k + 1], ns[marks[k].size..marks[k + 1].size],
             log[marks[k].asked..marks[k + 1].asked], ending)
  }

  /** The rounds follow each other; all but the last leave the loop going. */
  ghost predicate RoundsSoFar(w: World, marks: seq<Mark>, ns: seq<Node>, log: seq<Call>) {
    forall k: nat :: k + 1 < |marks| ==> RoundAt(w, marks, k, ns, log, None)
  }

  /** The loop as a whole: at most ten rounds, and it ends as its last one does, or after ten that leave it going. */
  ghost predicate LoopDone(w: World, marks: seq<Mark>, ns: seq<Node>, log: seq<Call>, ending: Ending) {
    && 2 <= |marks| <= 11 && marks[|marks| - 1].size == |ns| && marks[|marks| - 1].asked == |log|
    && if ending == TooManySteps then |marks| == 11 && RoundsSoFar(w, marks, ns, log)
       else RoundsSoFar(w, marks[..|marks| - 1], ns, log) && RoundAt(w, marks, |marks| - 2, ns, log, Some(ending))
  }

  lemma RoundKept(w: World, marks: seq<Mark>, k: nat, ns: seq<Node>, log: seq<Call>, ending: Option<Ending>,
                  marks': seq<Mark>, ns': seq<Node>, log': seq<Call>)
    requires k + 1 < |marks| && RoundAt(w, marks, k, ns, log, ending)
    requires marks <= marks' && ns <= ns' && log <= log'
    ensures RoundAt(w, marks', k, ns', log', ending)
  {
    hide Round;
    assert ns'[marks[k].size..marks[k + 1].size] == ns[marks[k].size..marks[k + 1].size];
    assert log'[marks[k].asked..marks[k + 1].asked] == log[marks[k].asked..marks[k + 1].asked];
  }

  lemma RoundsKept(w: World, marks: seq<Mark>, ns: seq<Node>, log: seq<Call>, ns': seq<Node>, log': seq<Call>)
    requires RoundsSoFar(w, marks, ns, log) && ns <= ns' && log <= log'
    ensures RoundsSoFar(w, marks, ns', log')
  {
    hide RoundAt;
    forall k: nat | k + 1 < |marks| ensures RoundAt(w, marks, k, ns', log', None) {
      RoundKept(w, marks, k, ns, log, None, marks, ns', log');
    }
  }

  lemma OneMoreRound(w: World, marks: seq<Mark>, ns: seq<Node>, log: seq<Call>, to: Mark)
    requires marks != [] && RoundsSoFar(w, marks, ns, log) && RoundAt(w, marks + [to], |marks| - 1, ns, log, None)
    ensures RoundsSoFar(w, marks + [to], ns, log)
  {
    hide RoundAt;
    forall k: nat | k + 1 < |marks + [to]| ensures RoundAt(w, marks + [to], k, ns, log, None) {
      if k + 1 < |marks| { RoundKept(w, marks, k, ns, log, None, marks + [to], ns, log); }
    }
  }

  // ----- what an arrival does -----

  /**
   All calls were answered in order: a teleport by the greeting, any other by running the tool once and
   recording what it gave. The log holds just the tools that were run.
   */
  ghost predicate Arrived(w: World, used: nat, calls: seq<ToolCall>, greeting: string, results: seq<Node>,
                          log: seq<Call>)
    decreases |calls|
  {
    if calls == [] then results == [] && log == []
    else
      var m := |calls| - 1;
      && |results| == |calls|
      && if calls[m].name == "teleport" then
           && Reports(results[m].message, calls[m].id, calls[m].name, greeting, false)
           && Arrived(w, used, calls[..m], greeting, results[..m], log)
         else
           && log != []
           && ToolRan(w, used + 2 * m + |log| - 1, log[|log| - 1], results[m].message, calls[m].id, calls[m].name,
                      calls[m].arguments)
           && Arrived(w, used, calls[..m], greeting, results[..m], log[..|log| - 1])
  }

  lemma ArrivedSizes(w: World, used: nat, calls: seq<ToolCall>, greeting: string, results: seq<Node>, log: seq<Call>)
    requires Arrived(w, used, calls, greeting, results, log)
    ensures |results| == |calls|
  {
  }

  lemma NothingArrived(w: World, used: nat, greeting: string)
    ensures Arrived(w, used, [], greeting, [], [])
  {
  }

  lemma OneMoreArrival(w: World, used: nat, calls: seq<ToolCall>, greeting: string, results: seq<Node>, log: seq<Call>,
                       c: ToolCall, n: Node)
    requires c.name == "teleport" && Arrived(w, used, calls, greeting, results, log)
    requires Reports(n.message, c.id, c.name, greeting, false)
    ensures Arrived(w, used, calls + [c], greeting, results + [n], log)
  {
    hide Reports, ToolRan;
    ArrivedSizes(w, used, calls, greeting, results, log);
    assert (calls + [c])[..|calls|] == calls && (results + [n])[..|calls|] == results;
  }

  lemma OneMoreToolArrival(w: World, used: nat, calls: seq<ToolCall>, greeting: string, results: seq<Node>,
    log: seq<Call>,
                           c: ToolCall, n: Node, call: Call)
    requires c.name != "teleport" && Arrived(w, used, calls, greeting, results, log)
    requires ToolRan(w, used + 2 * |calls| + |log|, call, n.message, c.id, c.name, c.arguments)
    ensures Arrived(w, used, calls + [c], greeting, results + [n], log + [call])
  {
    hide Reports, ToolRan;
    ArrivedSizes(w, used, calls, greeting, results, log);
    assert (calls + [c])[..|calls|] == calls && (results + [n])[..|calls|] == results && (log + [call])[..|log|] == log;
  }

  // ----- what the users said -----

  /** The texts of the user messages, in order. */
  ghost function UserTexts(ns: seq<Node>): seq<string> {
    if ns == [] then []
    else
      var u := ns[|ns| - 1].message.user;
      UserTexts(ns[..|ns| - 1]) + if u.Some? then [PartsText(u.value)] else []
  }

  lemma UserTextsLonger(ns: seq<Node>, n: Node)
    ensures UserTexts(ns + [n]) == UserTexts(ns) + if n.message.user.Some? then [PartsText(n.message.user.value)]
      else []
  {
    assert (ns + [n])[..|ns|] == ns;
  }

  lemma UserTextIs(ns: seq<Node>, n: Node, text: string)
    requires UserSays(n.message, text)
    ensures UserTexts(ns + [n]) == UserTexts(ns) + [text]
  {
    UserTextsLonger(ns, n);
    assert n.message.user.value == [n.message.user.value[0]];
    TextIsJoined([], n.message.user.value[0], []);
  }

  /** How a run of the inference loop ends. */
  datatype Ending = Said(text: string) | ModelFailed | TooManySteps | Teleported

  /** The last call out of the harness was the hand-off. */
  ghost predicate Announced(log: seq<Call>, sess: Session, quads: set<Quad>) {
    log != [] && log[|log| - 1] == Spawned(sess.id, quads)
  }

  /** What an ending says about the session: text is the last message, a teleport leaves its calls open. */
  ghost predicate EndsWith(ending: Ending, ns: seq<Node>, log: seq<Call>, sess: Session, quads: set<Quad>) {
    match ending
    case Said(text) => ReadAll(ns) == Idle && ns != [] && ns[|ns| - 1].message == AssistantText(text)
    case Teleported => HandOffDue(ns) && Announced(log, sess, quads)
    case ModelFailed => ReadAll(ns) == Waiting
    case TooManySteps => ReadAll(ns) == Waiting
  }

  // ----- the harness -----

  class Harness {
    const graph: Graph
    const store: Store
    const world: World
    var headID: ID
    var callSeq: nat
    /** The session as the store has it, and its nodes. */
    ghost const sess: Session
    ghost var ns: seq<Node>

    constructor (graph: Graph, store: Store, world: World, headID: ID, ghost sess: Session, ghost ns: seq<Node>)
      ensures this.graph == graph && this.store == store && this.world == world
      ensures this.headID == headID && callSeq == 0 && this.sess == sess && this.ns == ns
    {
      this.graph, this.store, this.world := graph, store, world;
      this.headID, callSeq := headID, 0;
      this.sess, this.ns := sess, ns;
    }

    /** Graph, store and head pointer agree on one chain. */
    ghost predicate Valid()
      reads this, graph, store, world
    {
      && Stored(store.quads, sess, ns) && ns != []
      && GraphIs(graph.Value(), sess.id, ns)
      && headID == LastID(ns)
      && world.Supplies(store.quads)
      && LogGood(world.log, sess)
    }

    /** The graph and the head pointer are one node ahead of the store. */
    ghost predicate Ahead(node: Node)
      reads this, graph, store, world
    {
      && Stored(store.quads, sess, ns) && ns != []
      && node.sessionID == sess.id && IsChain(sess.id, ns + [node])
      && GraphIs(graph.Value(), sess.id, ns + [node])
      && headID == node.id
      && world.Supplies(store.quads) && UnusedNode(store.quads, node.id)
      && (forall i: nat :: i >= world.used ==> world.ids(i) != node.id)
      && LogGood(world.log, sess)
    }

    /** Appends under the head and moves the head; this never fails. */
    method Append(message: Message) returns (node: Node)
      requires Valid() && message.Valid()
      modifies this`headID, graph, world`used
      ensures Ahead(node) && node.message == message && world.used == old(world.used) + 2
      ensures node.id == world.ids(old(world.used)) && node.timestamp == world.clock(old(world.used) + 1)
    {
      hide MadeFrom, Holding, AppendFails, Holds, ParentIDs, CallFinds, NodeMap, ChildIndex;
      var id := world.NewID();
      var now := world.Now();
      assert UnusedNode(store.quads, id) && Plain(id);
      NewToChain(store.quads, sess, ns, id);
      AppendExtends(graph.Value(), sess.id, ns, message, id, now);
      var appended := graph.Append(message, [headID], id, now);
      node := appended.value;
      headID := node.id;
      assert LastID(ns + [node]) == node.id;
    }

    /** Writes the appended node through to the store; the store accepts it. */
    method PersistNode(node: Node)
      requires Ahead(node)
      modifies store, this`ns
      ensures Valid() && ns == old(ns) + [node]
    {
      WriteAccepted(store.quads, sess, ns, StillOpen);
      WriteHolds(store.quads, sess, ns, StillOpen, node);
      assert Plain(node.id) by { assert Link(sess.id, ns + [node], |ns|); }
      forall i: nat | i >= world.used ensures UnusedNode(AfterWrite(store.quads, node), world.ids(i)) {
        WriteLeavesUnused(store.quads, sess, ns, node, world.ids(i));
      }
      var err := store.WriteNode(node);
      ns := ns + [node];
    }

    /** One message, appended and persisted. */
    method Record(message: Message)
      requires Valid() && message.Valid()
      modifies this`headID, this`ns, graph, store, world`used
      ensures Valid() && |ns| == |old(ns)| + 1 && old(ns) == ns[..|old(ns)|] && ns[|old(ns)|].message == message
      ensures ReadAll(ns) == Read(ReadAll(old(ns)), message) && world.used == old(world.used) + 2
      ensures UserTexts(ns) == UserTexts(old(ns)) + if message.user.Some? then [PartsText(message.user.value)] else []
    {
      var node := Append(message);
      ReadLonger(ns, node);
      UserTextsLonger(ns, node);
      PersistNode(node);
    }

    /** The canonical lineage of the head: the whole session. */
    method Resume() returns (nodes: seq<Node>)
      requires Valid()
      ensures nodes == ns
    {
      ChainResumes(sess, ns);
      var r := graph.ResumeNodes(headID, |ns| - 1);
      LineageFound(graph.nodes, headID, ns, r);
      nodes := r.value;
    }

    method ToolCalls(requests: seq<Request>) returns (calls: seq<ToolCall>)
      ensures calls == CallsFor(callSeq, requests)
    {
      calls := [];
      for i := 0 to |requests|
        invariant |calls| == i && forall k :: 0 <= k < i ==> calls[k] == CallsFor(callSeq, requests)[k]
      {
        calls := calls + [ToolCall(CallID(callSeq, i), requests[i].name, requests[i].arguments)];
      }
    }

    method TeleportIndex(requests: seq<Request>) returns (idx: int)
      ensures var i := FirstTeleport(CallsFor(callSeq, requests)); idx == if i < |requests| then i else -1
    {
      ghost var calls := CallsFor(callSeq, requests);
      idx := -1;
      for i := 0 to |requests|
        invariant forall k :: 0 <= k < i ==> calls[k].name != TELEPORT
      {
        if requests[i].name == TELEPORT {
          assert calls[i].name == TELEPORT;
          return i;
        }
      }
    }

    /** Executes one call and records its result. */
    method RunTool(request: Request, ghost calls: seq<ToolCall>, i: nat) returns (ghost node: Node, ghost call: Call)
      requires Valid() && i < |calls| && !Teleports(calls) && ReadAll(ns) == Answering(calls, i)
      requires calls[i] == ToolCall(CallID(callSeq, i), request.name, request.arguments)
      modifies this`headID, this`ns, graph, store, world
      ensures Valid() && ns == old(ns) + [node] && world.log == old(world.log) + [call]
      ensures ReadAll(ns) == if i + 1 == |calls| then Waiting else Answering(calls, i + 1)
      ensures UserTexts(ns) == UserTexts(old(ns)) && Asks(world.log) == Asks(old(world.log))
      ensures world.used == old(world.used) + 3
      ensures ToolRan(world, old(world.used), call, node.message, CallID(callSeq, i), request.name, request.arguments)
    {
      hide Valid, Asks, UserTexts, Reports, ReadAll, Read, CallID;
      var outcome := ExecuteNext(request.name, request.arguments);
      call := Ran(request.name, request.arguments, store.quads);
      PlainAnswer(calls, i, outcome.output, !outcome.success);
      ResultReports(CallID(callSeq, i), request.name, outcome.output, !outcome.success);
      Record(ToolResult(CallID(callSeq, i), request.name, outcome.output, !outcome.success));
      node := ns[|ns| - 1];
    }

    /** Executes the calls one by one and records each result; none of them is a teleport. */
    method RunTools(requests: seq<Request>) returns (ghost results: seq<Node>, ghost ran: seq<Call>)
      requires Valid() && requests != []
      requires ReadAll(ns) == Answering(CallsFor(callSeq, requests), 0) && !Teleports(CallsFor(callSeq, requests))
      modifies this`headID, this`ns, graph, store, world
      ensures Valid() && ns == old(ns) + results && world.log == old(world.log) + ran && ReadAll(ns) == Waiting
      ensures ToolsRan(world, old(world.used), callSeq, requests, results, ran)
      ensures world.used == old(world.used) + 3 * |requests|
      ensures UserTexts(ns) == UserTexts(old(ns)) && Asks(world.log) == Asks(old(world.log))
    {
      hide Valid, ToolRan, Asks, UserTexts, ToolsRan, ReadAll, Teleports, CallID;
      ghost var calls := CallsFor(callSeq, requests);
      results, ran := [], [];
      NoToolYet(world, world.used, callSeq, requests);
      for i := 0 to |requests|
        invariant Valid() && ns == old(ns) + results && world.log == old(world.log) + ran
        invariant ReadAll(ns) == if i == |calls| then Waiting else Answering(calls, i)
        invariant ToolsRan(world, old(world.used), callSeq, requests[..i], results, ran)
        invariant world.used == old(world.used) + 3 * i
        invariant UserTexts(ns) == UserTexts(old(ns)) && Asks(world.log) == Asks(old(world.log))
      {
        ghost var node, call;
        node, call := RunTool(requests[i], calls, i);
        OneMoreTool(world, old(world.used), callSeq, requests[..i], results, ran, requests[i], node, call);
        assert requests[..i + 1] == requests[..i] + [requests[i]];
        results, ran := results + [node], ran + [call];
      }
      assert requests[..|requests|] == requests;
    }

    /** Runs the tool that is to be answered next. */
    method ExecuteNext(name: string, arguments: string) returns (outcome: ToolOutcome)
      requires Valid() && NextCall(ns, name, arguments)
      modifies world
      ensures Valid() && outcome == world.outcomes(old(world.used)) && world.used == old(world.used) + 1
      ensures world.log == old(world.log) + [Ran(name, arguments, store.quads)]
        && Asks(world.log) == Asks(old(world.log))
    {
      LogGrows(world.log, Ran(name, arguments, store.quads), sess, ns);
      AsksLonger(world.log, Ran(name, arguments, store.quads));
      outcome := world.Execute(name, arguments, store.quads);
    }

    /** Starts the requested hand-off; only a failure to start it is recorded. */
    method HandOff(callID: string) returns (gone: bool)
      requires Valid() && HandOffDue(ns) && callID == ReadAll(ns).calls[FirstTeleport(ReadAll(ns).calls)].id
      modifies this`headID, this`ns, graph, store, world
      ensures Valid() && old(ns) <= ns && Asks(world.log) == Asks(old(world.log))
      ensures if gone then HandOffDue(ns) && Announced(world.log, sess, store.quads) else ReadAll(ns) == Waiting
      ensures world.log == old(world.log) + [Spawned(sess.id, old(store.quads))]
      ensures gone == world.spawnErrors(old(world.used)).None? && UserTexts(ns) == UserTexts(old(ns))
      ensures gone ==> ns == old(ns) && world.used == old(world.used) + 1
      ensures !gone ==>
        && |ns| == |old(ns)| + 1 && world.used == old(world.used) + 3
        && Reports(ns[|old(ns)|].message, callID, "teleport", world.spawnErrors(old(world.used)).value, true)
    {
      hide UserTexts;
      LogGrows(world.log, Spawned(sess.id, store.quads), sess, ns);
      AsksLonger(world.log, Spawned(sess.id, store.quads));
      var spawnErr := world.Spawn(graph.session.id, store.quads);
      assert Valid();
      if spawnErr.None? { return true; }
      SpawnErrorRead(ReadAll(ns).calls, spawnErr.value);
      Record(ToolResult(callID, TELEPORT, spawnErr.value, true));
      gone := false;
    }

    /** Appends the message with the calls the model asked for, not yet persisted. */
    method AppendCalls(requests: seq<Request>) returns (callNode: Node)
      requires Valid() && ReadAll(ns) == Waiting && requests != []
      modifies this`headID, this`callSeq, graph, world`used
      ensures Ahead(callNode) && callSeq == old(callSeq) + 1 && world.used == old(world.used) + 2
      ensures AssistantAsks(callNode.message, callSeq, requests)
      ensures ReadAll(ns + [callNode]) == Answering(CallsFor(callSeq, requests), 0)
      ensures UserTexts(ns + [callNode]) == UserTexts(ns)
    {
      hide UserTexts;
      callSeq := callSeq + 1;
      assert Valid();
      var calls := ToolCalls(requests);
      callNode := Append(AssistantCalls(calls));
      MessagesSay("", "", "", false, callSeq, requests);
      ReadLonger(ns, callNode);
      UserTextsLonger(ns, callNode);
    }

    /** Records the calls the model asked for, and then hands off or runs the tools. */
    method CallTools(requests: seq<Request>) returns (gone: bool)
      requires Valid() && ReadAll(ns) == Waiting && requests != []
      modifies this, graph, store, world
      ensures Valid() && old(ns) <= ns && old(world.log) <= world.log && Asks(world.log) == Asks(old(world.log))
      ensures if gone then HandOffDue(ns) && Announced(world.log, sess, store.quads) else ReadAll(ns) == Waiting
      ensures callSeq == old(callSeq) + 1 && UserTexts(ns) == UserTexts(old(ns))
      ensures CallsDone(world, old(world.used), callSeq, requests, ns[|old(ns)|..], world.log[|old(world.log)|..], gone,
                        world.used)
    {
      hide Valid, Ahead, ReadAll, LogGood, Asks, Announced, UserTexts, AssistantAsks, ToolsRan, HandOffDue, Reports;
      hide CallID, FirstHandOff, CallsDone;
      var callNode := AppendCalls(requests);
      var teleportIdx := TeleportIndex(requests);
      TeleportRequested(callSeq, requests);
      // Intercept a teleport before executing any tool.
      if teleportIdx >= 0 {
        PersistNode(callNode);
        HandOffIsDue(ns, callSeq, requests);
        ghost var spawned := Spawned(sess.id, store.quads);
        gone := HandOff(CallID(callSeq, teleportIdx));
        assert ns[|old(ns)|..] == [callNode] + ns[|old(ns)| + 1..] && world.log[|old(world.log)|..] == [spawned];
        DoneByHandOff(world, old(world.used), callSeq, requests, callNode, ns[|old(ns)| + 1..], spawned,
          gone, world.used,
                      teleportIdx);
        return;
      }
      PersistNode(callNode);
      ghost var results, ran := RunTools(requests);
      assert ns[|old(ns)|..] == [callNode] + results && world.log[|old(world.log)|..] == ran;
      DoneByTools(world, old(world.used), callSeq, requests, callNode, results, ran);
      gone := false;
    }

    /** Shows the model the whole session. */
    method AskModel() returns (reply: Reply)
      requires Valid() && ReadAll(ns) == Waiting
      modifies world
      ensures Valid() && Asks(world.log) == Asks(old(world.log)) + 1
      ensures reply == world.replies(old(world.used)) && world.used == old(world.used) + 1
      ensures world.log == old(world.log) + [Asked(Prompt(ns), store.quads)]
    {
      hide ReadAll, Read, Prompt, Asks, IsChain, GraphIs;
      var nodes := Resume();
      var prompt := ToChatMessages(nodes);
      LogGrows(world.log, Asked(prompt, store.quads), sess, ns);
      AsksLonger(world.log, Asked(prompt, store.quads));
      reply := world.Ask(prompt, store.quads);
    }

    /** One round with the model; None means that the loop goes on. */
    method InferenceStep() returns (ending: Option<Ending>)
      requires Valid() && ReadAll(ns) == Waiting
      modifies this, graph, store, world
      ensures Valid() && old(ns) <= ns && Asks(world.log) == Asks(old(world.log)) + 1
      ensures ending != Some(TooManySteps)
      ensures ending.Some? ==> EndsWith(ending.value, ns, world.log, sess, store.quads)
      ensures ending.None? ==> ReadAll(ns) == Waiting
      ensures old(world.log) <= world.log && UserTexts(ns) == UserTexts(old(ns))
      ensures Round(world, Mark(old(world.used), old(callSeq), |old(ns)|, |old(world.log)|),
                    Mark(world.used, callSeq, |ns|, |world.log|), ns[|old(ns)|..], world.log[|old(world.log)|..],
                      ending)
    {
      hide Valid, ReadAll, Asks, UserTexts, CallsDone, AssistantSays, Prompt, HandOffDue, Announced;
      var reply := AskModel();
      ghost var log := world.log;
      assert log[|old(world.log)|..] == [Asked(Prompt(ns), store.quads)];
      if reply.NoReply? { return Some(ModelFailed); }
      if |reply.calls| == 0 {
        MessagesSay(reply.content, "", "", false, 0, []);
        Record(AssistantText(reply.content));
        return Some(Said(reply.content));
      }
      var gone := CallTools(reply.calls);
      assert world.log[|old(world.log)|..][1..] == world.log[|log|..];
      ending := if gone then Some(Teleported) else None;
    }

    /** Asks the model until it answers in text, at most MAX_TOOL_STEPS times. */
    method RunInferenceLoop() returns (ending: Ending, ghost marks: seq<Mark>)
      requires Valid() && ReadAll(ns) == Waiting
      modifies this, graph, store, world
      ensures Valid() && old(ns) <= ns && EndsWith(ending, ns, world.log, sess, store.quads)
      ensures Asks(world.log) <= Asks(old(world.log)) + MAX_TOOL_STEPS
      ensures ending == TooManySteps ==> Asks(world.log) == Asks(old(world.log)) + MAX_TOOL_STEPS
      ensures old(world.log) <= world.log && UserTexts(ns) == UserTexts(old(ns))
      ensures LoopDone(world, marks, ns, world.log, ending)
      ensures marks[0] == Mark(old(world.used), old(callSeq), |old(ns)|, |old(world.log)|)
    {
      hide Valid, ReadAll, Asks, UserTexts, Round, EndsWith;
      marks := [Mark(world.used, callSeq, |ns|, |world.log|)];
      for step := 0 to MAX_TOOL_STEPS
        invariant Valid() && old(ns) <= ns && ReadAll(ns) == Waiting && old(world.log) <= world.log
        invariant Asks(world.log) == Asks(old(world.log)) + step && UserTexts(ns) == UserTexts(old(ns))
        invariant |marks| == step + 1 && marks[0] == Mark(old(world.used), old(callSeq), |old(ns)|, |old(world.log)|)
        invariant marks[step] == Mark(world.used, callSeq, |ns|, |world.log|)
        invariant RoundsSoFar(world, marks, ns, world.log)
      {
        ghost var before, log := ns, world.log;
        var over := InferenceStep();
        ghost var to := Mark(world.used, callSeq, |ns|, |world.log|);
        RoundsKept(world, marks, before, log, ns, world.log);
        assert ns[|before|..|ns|] == ns[|before|..] && world.log[|log|..|world.log|] == world.log[|log|..];
        assert RoundAt(world, marks + [to], step, ns, world.log, over);
        if over.Some? {
          marks := marks + [to];
          assert marks[..|marks| - 1] == marks[..step + 1];
          return over.value, marks;
        }
        OneMoreRound(world, marks, ns, world.log, to);
        marks := marks + [to];
      }
      ending := TooManySteps;
      StillWaiting(ns, world.log, sess, store.quads);
    }

    /** Records what the user said, and lets the loop run. */
    method HandleTurn(input: string) returns (ending: Ending, ghost marks: seq<Mark>)
      requires Valid() && ReadAll(ns) in {Idle, Waiting}
      modifies this, graph, store, world
      ensures Valid() && old(ns) <= ns && EndsWith(ending, ns, world.log, sess, store.quads)
      ensures |ns| > |old(ns)| && UserSays(ns[|old(ns)|].message, input)
        && UserTexts(ns) == UserTexts(old(ns)) + [input]
      ensures LoopDone(world, marks, ns, world.log, ending)
      ensures marks[0] == Mark(old(world.used) + 2, old(callSeq), |old(ns)| + 1, |old(world.log)|)
    {
      hide Valid, UserTexts, LoopDone, EndsWith;
      MessagesSay(input, "", "", false, 0, []);
      Record(UserText(input));
      assert ns == old(ns) + [ns[|old(ns)|]];
      UserTextIs(old(ns), ns[|old(ns)|], input);
      ending, marks := RunInferenceLoop();
    }

    /** Answers one call: a teleport by the greeting, any other by running its tool. */
    method AnswerCall(tc: ToolCall, greeting: string, ghost calls: seq<ToolCall>, ghost i: nat)
      returns (ghost node: Node, ghost ran: seq<Call>)
      requires Valid() && i < |calls| && tc == calls[i] && ReadAll(ns) == Answering(calls, i)
      modifies this`headID, this`ns, graph, store, world
      ensures Valid() && ns == old(ns) + [node] && world.log == old(world.log) + ran
      ensures ReadAll(ns) == if i + 1 == |calls| then Waiting else Answering(calls, i + 1)
      ensures UserTexts(ns) == UserTexts(old(ns)) && Asks(world.log) == Asks(old(world.log))
      ensures world.used == old(world.used) + 2 + |ran|
      ensures tc.name == "teleport" ==> ran == [] && Reports(node.message, tc.id, tc.name, greeting, false)
      ensures tc.name != "teleport" ==>
        |ran| == 1 && ToolRan(world, old(world.used), ran[0], node.message, tc.id, tc.name, tc.arguments)
    {
      hide Valid, UserTexts, Asks, Reports, ReadAll, Read;
      var text, isError;
      ran := [];
      if tc.name == TELEPORT {
        text, isError := greeting, false;
      } else {
        var outcome := ExecuteNext(tc.name, tc.arguments);
        text, isError := outcome.output, !outcome.success;
        ran := [Ran(tc.name, tc.arguments, store.quads)];
      }
      ArrivalAnswer(calls, i, text, isError);
      ResultReports(tc.id, tc.name, text, isError);
      Record(ToolResult(tc.id, tc.name, text, isError));
      node := ns[|ns| - 1];
    }

    /** Answers every call of the last message, arrivals included; then it is the model's turn. */
    method AnswerArrival(calls: seq<ToolCall>, greeting: string)
      returns (ghost results: seq<Node>, ghost ran: seq<Call>)
      requires Valid() && calls != [] && ReadAll(ns) == Answering(calls, 0)
      modifies this`headID, this`ns, graph, store, world
      ensures Valid() && ns == old(ns) + results && world.log == old(world.log) + ran && ReadAll(ns) == Waiting
      ensures UserTexts(ns) == UserTexts(old(ns)) && Asks(world.log) == Asks(old(world.log))
      ensures Arrived(world, old(world.used), calls, greeting, results, ran)
      ensures world.used == old(world.used) + 2 * |calls| + |ran|
    {
      hide Valid, UserTexts, Asks, Arrived, ToolRan, Reports, ReadAll;
      results, ran := [], [];
      NothingArrived(world, world.used, greeting);
      assert calls[..0] == [];
      for i := 0 to |calls|
        invariant Valid() && ns == old(ns) + results && world.log == old(world.log) + ran
        invariant ReadAll(ns) == if i == |calls| then Waiting else Answering(calls, i)
        invariant UserTexts(ns) == UserTexts(old(ns)) && Asks(world.log) == Asks(old(world.log))
        invariant Arrived(world, old(world.used), calls[..i], greeting, results, ran)
        invariant world.used == old(world.used) + 2 * i + |ran|
      {
        ghost var node, more;
        node, more := AnswerCall(calls[i], greeting, calls, i);
        assert calls[..i + 1] == calls[..i] + [calls[i]] && |calls[..i]| == i;
        if calls[i].name == "teleport" {
          assert ran + more == ran;
          OneMoreArrival(world, old(world.used), calls[..i], greeting, results, ran, calls[i], node);
        } else {
          assert more == [more[0]];
          OneMoreToolArrival(world, old(world.used), calls[..i], greeting, results, ran, calls[i], node, more[0]);
        }
        results, ran := results + [node], ran + more;
      }
      assert calls[..|calls|] == calls;
    }

    /** The calls that the last message leaves open. */
    method OpenCalls() returns (calls: seq<ToolCall>)
      requires Valid() && (HandOffDue(ns) || ReadAll(ns) in {Idle, Waiting})
      ensures calls == CallsAt(ns, |ns| - 1)
      ensures calls != [] <==> HandOffDue(ns)
      ensures HandOffDue(ns) ==> ReadAll(ns) == Answering(calls, 0)
    {
      HeadIsLast(sess.id, ns);
      var head := graph.Head();
      var assistant := head.value.message.assistant;
      assert Link(sess.id, ns, |ns| - 1);
      LastReads(ns);
      calls := if assistant.None? then [] else assistant.value.toolCalls;
    }

    /** A process started by a hand-off answers the calls left open and goes on; any other has nothing to do. */
    method HandleArrival(greeting: string)
      returns (arrived: bool, ending: Ending, ghost results: seq<Node>, ghost ran: seq<Call>, ghost marks: seq<Mark>)
      requires Valid() && (HandOffDue(ns) || ReadAll(ns) in {Idle, Waiting})
      modifies this, graph, store, world
      ensures Valid() && old(ns) <= ns && UserTexts(ns) == UserTexts(old(ns))
      ensures arrived <==> old(HandOffDue(ns))
      ensures !arrived ==> ns == old(ns) && world.log == old(world.log)
      ensures arrived ==> EndsWith(ending, ns, world.log, sess, store.quads)
      ensures arrived ==>
        && Arrived(world, old(world.used), CallsAt(old(ns), |old(ns)| - 1), greeting, results, ran)
        && old(ns) + results <= ns && old(world.log) + ran <= world.log
        && LoopDone(world, marks, ns, world.log, ending)
        && marks[0] == Mark(old(world.used) + 2 * |results| + |ran|, old(callSeq), |old(ns)| + |results|,
                            |old(world.log)| + |ran|)
    {
      hide Valid, LoopDone, UserTexts, Arrived, EndsWith, ReadAll, CallsAt, Asks;
      ending, results, ran, marks := ModelFailed, [], [], [];
      var calls := OpenCalls();
      if |calls| == 0 { return false, ending, results, ran, marks; }
      ghost var used := world.used;
      results, ran := AnswerArrival(calls, greeting);
      ArrivedSizes(world, used, calls, greeting, results, ran);
      arrived := true;
      ending, marks := RunInferenceLoop();
    }

    /** Ends the session in the graph and in the store. */
    method Close()
      requires Valid()
      modifies this, graph, store, world`used
      ensures ns == old(ns) && world.log == old(world.log)
      ensures graph.closed && graph.terminalNodeID == headID == LastID(ns) && graph.endReason == REASON_COMPLETE
      ensures Holds(store.quads, sess, ns, EndedWith(REASON_COMPLETE, headID))
    {
      var now := world.Now();
      var ended := graph.End(REASON_COMPLETE, now);
      EndHolds(store.quads, sess, ns, ended.value.reason, ended.value.terminalNodeID);
      var err := store.EndSession(graph.session.id, ended.value.reason, ended.value.terminalNodeID);
    }
  }

  // ----- steps -----

  lemma StillWaiting(ns: seq<Node>, log: seq<Call>, sess: Session, quads: set<Quad>)
    requires ReadAll(ns) == Waiting
    ensures EndsWith(TooManySteps, ns, log, sess, quads)
  {
  }

  lemma NoToolYet(w: World, used: nat, callSeq: nat, requests: seq<Request>)
    ensures ToolsRan(w, used, callSeq, requests[..0], [], [])
  {
  }

  lemma ResultReports(callID: string, name: string, text: string, isError: bool)
    ensures Reports(ToolResult(callID, name, text, isError), callID, name, text, isError)
  {
  }

  lemma OneMoreTool(w: World, used: nat, callSeq: nat, requests: seq<Request>, results: seq<Node>, log: seq<Call>,
                    r: Request, n: Node, call: Call)
    requires ToolsRan(w, used, callSeq, requests, results, log)
    requires ToolRan(w, used + 3 * |requests|, call, n.message, CallID(callSeq, |requests|), r.name, r.arguments)
    ensures ToolsRan(w, used, callSeq, requests + [r], results + [n], log + [call])
  {
    hide ToolRan;
  }

  /** A teleport is found among the calls exactly when one was requested, and first where it was requested first. */
  lemma TeleportRequested(callSeq: nat, requests: seq<Request>)
    ensures var i := FirstTeleport(CallsFor(callSeq, requests));
      if i < |requests| then FirstHandOff(requests, i) else !exists k :: FirstHandOff(requests, k)
  {
    var calls := CallsFor(callSeq, requests);
    var i := FirstTeleport(calls);
    forall k | 0 <= k < |requests| ensures calls[k].name == requests[k].name {}
    forall k: int | 0 <= k < |requests| && k < i ensures requests[k].name != "teleport" {
      assert calls[k].name != TELEPORT;
    }
  }

  lemma DoneByTools(w: World, used: nat, callSeq: nat, requests: seq<Request>, callNode: Node, results: seq<Node>,
                    ran: seq<Call>)
    requires AssistantAsks(callNode.message, callSeq, requests) && !(exists i :: FirstHandOff(requests, i))
    requires ToolsRan(w, used + 2, callSeq, requests, results, ran)
    ensures CallsDone(w, used, callSeq, requests, [callNode] + results, ran, false, used + 2 + 3 * |requests|)
  {
    hide AssistantAsks, ToolsRan, FirstHandOff;
    assert ([callNode] + results)[1..] == results;
  }

  lemma DoneByHandOff(w: World, used: nat, callSeq: nat, requests: seq<Request>, callNode: Node, results: seq<Node>,
                      call: Call, gone: bool, used': nat, i: nat)
    requires AssistantAsks(callNode.message, callSeq, requests) && FirstHandOff(requests, i) && call.Spawned?
    requires gone == w.spawnErrors(used + 2).None?
    requires gone ==> results == [] && used' == used + 3
    requires !gone ==>
      |results| == 1 && used' == used + 5
        && Reports(results[0].message, CallID(callSeq, i), "teleport", w.spawnErrors(used + 2).value, true)
    ensures CallsDone(w, used, callSeq, requests, [callNode] + results, [call], gone, used')
  {
    hide AssistantAsks, Reports, FirstHandOff;
    assert ([callNode] + results)[1..] == results;
  }

  lemma HandOffIsDue(ns: seq<Node>, callSeq: nat, requests: seq<Request>)
    requires ReadAll(ns) == Answering(CallsFor(callSeq, requests), 0)
    requires FirstTeleport(CallsFor(callSeq, requests)) < |requests|
    ensures var i := FirstTeleport(CallsFor(callSeq, requests));
      HandOffDue(ns) && ReadAll(ns).calls[FirstTeleport(ReadAll(ns).calls)].id == CallID(callSeq, i)
  {
  }

  lemma NewToChain(quads: set<Quad>, sess: Session, ns: seq<Node>, id: ID)
    requires Stored(quads, sess, ns) && UnusedNode(quads, id)
    ensures forall i :: 0 <= i < |ns| ==> ns[i].id != id
  {
    forall i | 0 <= i < |ns| ensures ns[i].id != id {
      SessionIsNoNode(quads, sess, ns, StillOpen, i);
      FirstQuad(ns[i]);
      assert Quad(ns[i].id, PSession, IRI(ns[i].sessionID), ns[i].sessionID) in quads;
    }
  }

  lemma ChainResumes(sess: Session, ns: seq<Node>)
    requires IsChain(sess.id, ns) && sess.id != NO_ID && ns != []
    ensures ClimbEnds(NodeMap(ns), LastID(ns), |ns| - 1) && IsLineage(NodeMap(ns), LastID(ns), ns)
    ensures forall id :: id in NodeMap(ns) ==> NodeMap(ns)[id].id == id
  {
    ChainLineage(sess.id, ns);
    LineageClimbs(NodeMap(ns), LastID(ns), ns);
    NodeMapKeys(ns);
  }

  /** A node with a lineage resumes to it. */
  lemma LineageFound(nodes: map<ID, Node>, id: ID, l: seq<Node>, r: Result<seq<Node>, Error>)
    requires IsLineage(nodes, id, l)
    requires r.Ok? ==> IsLineage(nodes, id, r.value)
    requires r.Err? ==> r.error.NodeNotFound? && exists n: nat :: LineageBreaks(nodes, id, r.error.id, n)
    ensures r == Ok(l)
  {
    if r.Ok? {
      LineageUnique(nodes, id, l, r.value);
    } else {
      forall n: nat ensures !LineageBreaks(nodes, id, r.error.id, n) {
        LineageDoesNotBreak(nodes, id, l, r.error.id, n);
      }
    }
  }

  lemma SpawnErrorRead(calls: seq<ToolCall>, text: string)
    requires Teleports(calls)
    ensures Read(Answering(calls, 0), ToolResult(calls[FirstTeleport(calls)].id, TELEPORT, text, true)) == Waiting
  {
  }

  lemma PlainAnswer(calls: seq<ToolCall>, i: nat, text: string, isError: bool)
    requires i < |calls| && !Teleports(calls)
    ensures Read(Answering(calls, i), ToolResult(calls[i].id, calls[i].name, text, isError))
            == if i + 1 == |calls| then Waiting else Answering(calls, i + 1)
  {
    assert calls[i].name != TELEPORT;
  }

  lemma ArrivalAnswer(calls: seq<ToolCall>, i: nat, text: string, isError: bool)
    requires i < |calls| && (calls[i].name == TELEPORT ==> !isError)
    ensures Read(Answering(calls, i), ToolResult(calls[i].id, calls[i].name, text, isError))
            == if i + 1 == |calls| then Waiting else Answering(calls, i + 1)
  {
  }

  lemma HeadIsLast(sid: ID, ns: seq<Node>)
    requires IsChain(sid, ns) && ns != []
    ensures LastID(ns) != NO_ID && LastID(ns) in NodeMap(ns) && NodeMap(ns)[LastID(ns)] == ns[|ns| - 1]
  {
    assert Link(sid, ns, |ns| - 1);
    NodeMapLookup(ns, |ns| - 1);
  }

  /** When nothing is broken, the last message has open calls exactly when a hand-off may be due. */
  lemma LastReads(ns: seq<Node>)
    requires ns != [] && ns[|ns| - 1].message.Valid()
    requires HandOffDue(ns) || ReadAll(ns) in {Idle, Waiting}
    ensures var a := ns[|ns| - 1].message.assistant;
      if HandOffDue(ns) then a.Some? && a.value.toolCalls != [] && ReadAll(ns) == Answering(a.value.toolCalls, 0)
      else a.None? || a.value.toolCalls == []
  {
  }
}
