/** Whole harness processes, and sessions that travel through any number of them by teleport. */
module HarnessRuns {
  import opened Types
  import opened GraphState
  import opened GraphInvariant
  import opened EventFields
  import opened CallEffects
  import opened SessionGraph
  import opened Quads
  import opened CayleyStore
  import opened StoreLoad
  import opened WriteThrough
  import opened Chain
  import opened Transcript
  import opened MathHarness

  // ----- newHarness -----

  lemma CreateLeavesUnused(quads: set<Quad>, sess: Session, id: ID)
    requires UnusedNode(quads, id) && Plain(id) && Plain(sess.id) && id != sess.id
    ensures UnusedNode(AfterCreate(quads, sess), id)
  {
    assert GLOBAL_SESSIONS.text[3] == ':' && GLOBAL_SESSIONS.text[0] == 's';
    forall k, x ensures EdgeIRI(id, k, x) != sess.id && EdgeIRI(id, k, x) != GLOBAL_SESSIONS {
      assert EdgeIRI(id, k, x).text[4] == ':' && EdgeIRI(id, k, x).text[0] == 'e';
    }
    forall q | q in AfterCreate(quads, sess) ensures q.subj != id && forall k, x :: q.subj != EdgeIRI(id, k, x) {
      if q in SessionQuads(sess) { assert q.subj == sess.id; }
    }
  }

  lemma EmptyStored(quads: set<Quad>, sess: Session)
    requires UnusedSession(quads, sess.id) && Plain(sess.id)
    ensures Stored(AfterCreate(quads, sess), sess, [])
  {
    CreateHolds(quads, sess);
  }

  lemma EmptyGraph(g: State, sid: ID)
    requires sid != NO_ID && g.session.id == sid && g.eventNames == DEFAULT_NAMES && g.started && !g.closed
      && g.headID == NO_ID
    requires g.nodes == map[] && g.children == map[] && g.terminalNodeID == NO_ID && g.endReason == ""
    ensures GraphIs(g, sid, [])
  {
  }

  /** Starts a graph and creates its session in the store, under a later reading of the clock. */
  method OpenSession(store: Store, world: World) returns (graph: Graph, ghost sess: Session)
    requires world.Supplies(store.quads) && UnusedSession(store.quads, world.ids(world.used))
    modifies store, world`used
    ensures fresh(graph) && GraphIs(graph.Value(), sess.id, []) && world.used == old(world.used) + 3
    ensures sess == Session(world.ids(old(world.used)), world.clock(old(world.used) + 2), None)
    ensures graph.session == sess.(timestamp := world.clock(old(world.used) + 1))
    ensures Stored(store.quads, sess, []) && world.Supplies(store.quads)
  {
    hide Opens, Stored, SessionQuads, GraphIs, AfterCreate;
    var sid := world.NewID();
    graph := new Graph(sid, None, DEFAULT_NAMES);
    var now := world.Now();
    var started := graph.Start(now);
    var stamp := world.Now();
    var stored := graph.session.(timestamp := stamp);
    sess := stored;
    EmptyGraph(graph.Value(), sid);
    EmptyStored(store.quads, sess);
    forall i: nat | i >= world.used ensures UnusedNode(AfterCreate(store.quads, sess), world.ids(i)) {
      CreateLeavesUnused(store.quads, sess, world.ids(i));
    }
    var err := store.CreateSession(stored);
  }

  /** Appends the system prompt as the root and persists it. */
  method WriteRoot(graph: Graph, store: Store, world: World, systemPrompt: string, ghost sess: Session)
    returns (root: Node)
    requires GraphIs(graph.Value(), sess.id, []) && Stored(store.quads, sess, []) && world.Supplies(store.quads)
    modifies graph, store, world`used
    ensures root.message == Message(Some(systemPrompt), None, None, None)
    ensures GraphIs(graph.Value(), sess.id, [root]) && Stored(store.quads, sess, [root]) && world.Supplies(store.quads)
  {
    hide Stored, IsChain, NodeMap, AddNode, AfterWrite, MadeFrom;
    hide Holding, AppendFails, ParentIDs, ChildIndex, UnusedNode;
    var message := Message(Some(systemPrompt), None, None, None);
    var id := world.NewID();
    var at := world.Now();
    StoredIsChain(store.quads, sess, []);
    AppendExtends(graph.Value(), sess.id, [], message, id, at);
    var appended := graph.Append(message, [], id, at);
    root := appended.value;
    assert [] + [root] == [root];
    RootPersists(store.quads, sess, root);
    forall i: nat | i >= world.used ensures UnusedNode(AfterWrite(store.quads, root), world.ids(i)) {
      WriteLeavesUnused(store.quads, sess, [], root, world.ids(i));
    }
    var err := store.WriteNode(root);
  }

  lemma StoredIsChain(quads: set<Quad>, sess: Session, ns: seq<Node>)
    requires Stored(quads, sess, ns)
    ensures IsChain(sess.id, ns)
  {
  }

  /** A new session: created in the store, with the system prompt as its root. */
  method StartSession(store: Store, world: World, systemPrompt: string) returns (h: Harness)
    requires world.Supplies(store.quads) && UnusedSession(store.quads, world.ids(world.used)) && world.log == []
    modifies store, world`used
    ensures fresh(h) && fresh(h.graph) && h.store == store && h.world == world && h.callSeq == 0
    ensures h.Valid() && |h.ns| == 1 && h.ns[0].message.system == Some(systemPrompt) && ReadAll(h.ns) == Idle
    ensures UserTexts(h.ns) == []
    ensures h.sess == Session(world.ids(old(world.used)), world.clock(old(world.used) + 2), None)
  {
    hide Stored, ReadAll;
    var graph;
    ghost var sess;
    graph, sess := OpenSession(store, world);
    var root := WriteRoot(graph, store, world, systemPrompt, sess);
    h := new Harness(graph, store, world, root.id, sess, [root]);
    SystemReads(root);
  }

  lemma SystemReads(root: Node)
    requires root.message.system.Some?
    ensures ReadAll([root]) == Idle && (root.message.user.None? ==> UserTexts([root]) == [])
  {
    ReadLonger([], root);
    UserTextsLonger([], root);
    assert [] + [root] == [root];
  }

  lemma RootPersists(quads: set<Quad>, sess: Session, root: Node)
    requires Stored(quads, sess, []) && root.sessionID == sess.id && UnusedNode(quads, root.id)
    requires IsChain(sess.id, [root])
    ensures Out(quads, sess.id, PTimestamp) != {} && Replaced(quads, sess.id, PHead) <= quads
    ensures Stored(AfterWrite(quads, root), sess, [root])
  {
    WriteAccepted(quads, sess, [], StillOpen);
    WriteHolds(quads, sess, [], StillOpen, root);
    assert [] + [root] == [root];
  }

  /** Takes over a stored session: everything is as the last process left it, but the call counter restarts. */
  method LoadSession(store: Store, world: World, sid: ID, ghost sess: Session, ghost ns: seq<Node>)
    returns (r: Result<Harness, Error>)
    requires Out(store.quads, sid, PTimestamp) == {} || (sess.id == sid && Stored(store.quads, sess, ns) && ns != [])
    requires world.Supplies(store.quads) && LogGood(world.log, sess)
    ensures Out(store.quads, sid, PTimestamp) == {} ==> r == Err(SessionNotFound(sid))
    ensures Out(store.quads, sid, PTimestamp) != {} ==>
      && r.Ok? && fresh(r.value) && fresh(r.value.graph) && r.value.store == store && r.value.world == world
      && r.value.Valid() && r.value.sess == sess && r.value.ns == ns && r.value.callSeq == 0
  {
    var loaded, ld, sorted := LoadGraph(store, sid);
    if loaded.Ok? {
      ChainLoads(store.quads, sess, ns, ld, sorted);
      HeadIsLast(sid, ns);
      var head := loaded.value.Head();
      var headID := if head.Some? then head.value.id else NO_ID;
      var h := new Harness(loaded.value, store, world, headID, sess, ns);
      r := Ok(h);
    } else {
      r := Err(loaded.error);
      if Out(store.quads, sid, PTimestamp) != {} {
        ChainLoads(store.quads, sess, ns, ld, sorted);
      }
    }
  }

  // ----- one process -----

  datatype Exit = HandedOff | Aborted | Closed

  /** How a process may leave the session. */
  ghost predicate Left(exit: Exit, quads: set<Quad>, sess: Session, ns: seq<Node>) {
    && ns != [] && IsChain(sess.id, ns)
    && match exit
       case HandedOff => Stored(quads, sess, ns) && HandOffDue(ns)
       case Aborted => Stored(quads, sess, ns) && ReadAll(ns) == Waiting
       case Closed => Holds(quads, sess, ns, EndedWith(REASON_COMPLETE, LastID(ns))) && ReadAll(ns) in {Idle, Waiting}
  }

  /** The lines that become user messages: all before the first that stops, except blank ones. */
  ghost function Spoken(lines: seq<string>): seq<string> {
    if lines == [] || lines[0] == ":quit" || lines[0] == ":exit" then []
    else (if lines[0] == "" then [] else [lines[0]]) + Spoken(lines[1..])
  }

  /** After these lines, none of which stopped, the rest decides what else is spoken. */
  ghost predicate Heard(lines: seq<string>, i: nat, turns: seq<string>) {
    i <= |lines| && Spoken(lines) == turns + Spoken(lines[i..])
  }

  lemma HeardNext(lines: seq<string>, i: nat, turns: seq<string>)
    requires i < |lines| && Heard(lines, i, turns) && lines[i] != ":quit" && lines[i] != ":exit"
    ensures Heard(lines, i + 1, turns + if lines[i] == "" then [] else [lines[i]])
  {
    assert lines[i..][1..] == lines[i + 1..];
    if lines[i] == "" { assert [] + Spoken(lines[i + 1..]) == Spoken(lines[i + 1..]); }
  }

  /**
   Arrival first, then one turn per input line; blank lines are skipped and ":quit" stops. The turns are the
   lines that became user messages, in order: all that are to be, unless a hand-off or a failed arrival came first.
   */
  method RunProcess(h: Harness, greeting: string, inputs: seq<string>) returns (exit: Exit, ghost turns: seq<string>)
    requires h.Valid() && (HandOffDue(h.ns) || ReadAll(h.ns) in {Idle, Waiting})
    modifies h, h.graph, h.store, h.world
    ensures old(h.ns) <= h.ns && LogGood(h.world.log, h.sess)
    ensures exit != Closed ==> h.Valid()
    ensures Left(exit, h.store.quads, h.sess, h.ns)
    ensures UserTexts(h.ns) == UserTexts(old(h.ns)) + turns && turns <= Spoken(inputs)
    ensures exit == Closed ==> turns == Spoken(inputs)
    ensures exit == Aborted ==> turns == []
  {
    hide UserTexts, LoopDone, Arrived, Spoken, Harness.Valid, ReadAll, HandOffDue, Left, LogGood;
    turns := [];
    var arrived, ending, _, _, _ := h.HandleArrival(greeting);
    LogIsGood(h);
    if arrived && ending == Teleported {
      LeftOpen(h, HandedOff, ending);
      return HandedOff, turns;
    }
    if arrived && !ending.Said? {
      LeftOpen(h, Aborted, ending);
      return Aborted, turns;
    }
    if arrived { SaidIsIdle(h, ending); }
    assert inputs[0..] == inputs;
    var i := 0;
    while i < |inputs|
      invariant i <= |inputs| && h.Valid() && old(h.ns) <= h.ns && ReadAll(h.ns) in {Idle, Waiting}
      invariant UserTexts(h.ns) == UserTexts(old(h.ns)) + turns && Heard(inputs, i, turns)
    {
      if inputs[i] == ":quit" || inputs[i] == ":exit" { break; }
      HeardNext(inputs, i, turns);
      if inputs[i] != "" {
        ghost var marks;
        ending, marks := h.HandleTurn(inputs[i]);
        turns := turns + [inputs[i]];
        if ending == Teleported {
          HeardSoFar(inputs, i + 1, turns);
          LogIsGood(h);
          LeftOpen(h, HandedOff, ending);
          return HandedOff, turns;
        }
        SaidIsIdle(h, ending);
      }
      i := i + 1;
    }
    HeardAll(inputs, i, turns);
    LogIsGood(h);
    ghost var ns := h.ns;
    ChainIs(h);
    h.Close();
    exit := Closed;
    LeftClosed(h.store.quads, h.sess, ns);
  }

  lemma LogIsGood(h: Harness)
    requires h.Valid()
    ensures LogGood(h.world.log, h.sess)
  {
  }

  lemma ChainIs(h: Harness)
    requires h.Valid()
    ensures h.ns != [] && IsChain(h.sess.id, h.ns)
  {
  }

  lemma LeftOpen(h: Harness, exit: Exit, ending: MathHarness.Ending)
    requires h.Valid() && EndsWith(ending, h.ns, h.world.log, h.sess, h.store.quads)
    requires if ending == Teleported then exit == HandedOff else exit == Aborted && !ending.Said?
    ensures Left(exit, h.store.quads, h.sess, h.ns)
  {
    hide ReadAll, Holds, LogGood, IsChain;
  }

  lemma SaidIsIdle(h: Harness, ending: MathHarness.Ending)
    requires EndsWith(ending, h.ns, h.world.log, h.sess, h.store.quads) && ending != Teleported
    ensures ReadAll(h.ns) in {Idle, Waiting}
  {
    hide ReadAll;
  }

  lemma LeftClosed(quads: set<Quad>, sess: Session, ns: seq<Node>)
    requires ns != [] && IsChain(sess.id, ns) && ReadAll(ns) in {Idle, Waiting}
    requires Holds(quads, sess, ns, EndedWith(REASON_COMPLETE, LastID(ns)))
    ensures Left(Closed, quads, sess, ns)
  {
  }

  lemma HeardSoFar(lines: seq<string>, i: nat, turns: seq<string>)
    requires Heard(lines, i, turns)
    ensures turns <= Spoken(lines)
  {
  }

  lemma HeardAll(lines: seq<string>, i: nat, turns: seq<string>)
    requires Heard(lines, i, turns) && (i < |lines| ==> lines[i] == ":quit" || lines[i] == ":exit")
    ensures turns == Spoken(lines)
  {
  }

  // ----- a session across processes -----

  /** The next process loads the session and goes on with it. */
  method TakeOver(store: Store, world: World, sid: ID, greeting: string, inputs: seq<string>,
                  ghost sess: Session, ghost ns: seq<Node>)
    returns (exit: Exit, ghost ns': seq<Node>, ghost turns: seq<string>)
    requires Left(HandedOff, store.quads, sess, ns) && sid == sess.id
    requires world.Supplies(store.quads) && LogGood(world.log, sess)
    modifies store, world
    ensures ns <= ns' && Left(exit, store.quads, sess, ns') && LogGood(world.log, sess)
    ensures exit == HandedOff ==> world.Supplies(store.quads)
    ensures UserTexts(ns') == UserTexts(ns) + turns && turns <= Spoken(inputs)
    ensures exit == Closed ==> turns == Spoken(inputs)
  {
    hide UserTexts, Spoken, ReadAll, IsChain, Holds, HandOffDue, Left, LogGood, Stored;
    LeftHandedOff(store.quads, sess, ns);
    var loaded := LoadSession(store, world, sid, sess, ns);
    exit, turns := RunProcess(loaded.value, greeting, inputs);
    ns' := loaded.value.ns;
  }

  /**
   A session that starts in one process and is taken over by the next after each hand-off, for as many
   processes as there are input scripts. Whatever the model, the tools and the launcher do, the session
   stays a single chain, each call out finds graph and store equal, and no message is out of order.
   */
  method RunSession(store: Store, world: World, systemPrompt: string, greeting: string, scripts: seq<seq<string>>)
    returns (exit: Exit, ghost sess: Session, ghost ns: seq<Node>, ghost said: seq<seq<string>>)
    requires scripts != []
    requires world.Supplies(store.quads) && UnusedSession(store.quads, world.ids(world.used)) && world.log == []
    modifies store, world
    ensures Left(exit, store.quads, sess, ns) && LogGood(world.log, sess)
    ensures ReadAll(ns) != Broken
    ensures ns[0].message.system == Some(systemPrompt) && UserTexts(ns) == Joined(said) && 0 < |said| <= |scripts|
    ensures forall k :: 0 <= k < |said| ==> said[k] <= Spoken(scripts[k])
    ensures exit == Closed ==> said[|said| - 1] == Spoken(scripts[|said| - 1])
    ensures exit == HandedOff ==> |said| == |scripts|
    ensures forall k: nat :: k < |ns| && CallsAt(ns, k) != [] ==> BlockAt(ns, k)
  {
    hide UserTexts, Spoken, ReadAll, IsChain, Holds, Joined, HandOffDue, Left, LogGood, Stored, BlockAt;
    var h := StartSession(store, world, systemPrompt);
    ghost var turns;
    exit, turns := RunProcess(h, greeting, scripts[0]);
    sess, ns, said := h.sess, h.ns, [turns];
    JoinedOne(turns);
    var sid := h.graph.session.id;
    var i := 1;
    while exit == HandedOff && i < |scripts|
      invariant 1 <= i <= |scripts| && |said| == i
      invariant Left(exit, store.quads, sess, ns) && LogGood(world.log, sess)
      invariant exit == HandedOff ==> sid == sess.id && world.Supplies(store.quads)
      invariant ns != [] && ns[0].message.system == Some(systemPrompt) && UserTexts(ns) == Joined(said)
      invariant forall k :: 0 <= k < |said| ==> said[k] <= Spoken(scripts[k])
      invariant exit == Closed ==> said[|said| - 1] == Spoken(scripts[|said| - 1])
    {
      ghost var more;
      exit, more, turns := TakeOver(store, world, sid, greeting, scripts[i], sess, ns);
      ns := more;
      JoinedLonger(said, turns);
      said := said + [turns];
      i := i + 1;
    }
    LeftReads(exit, store.quads, sess, ns);
    AllBlocks(sess, ns);
  }

  lemma LeftHandedOff(quads: set<Quad>, sess: Session, ns: seq<Node>)
    requires Left(HandedOff, quads, sess, ns)
    ensures Stored(quads, sess, ns) && ns != [] && HandOffDue(ns) && Out(quads, sess.id, PTimestamp) != {}
  {
    TimestampHeld(quads, sess, ns, StillOpen);
  }

  lemma LeftReads(exit: Exit, quads: set<Quad>, sess: Session, ns: seq<Node>)
    requires Left(exit, quads, sess, ns)
    ensures IsChain(sess.id, ns) && ReadAll(ns) != Broken
  {
    hide ReadAll, IsChain;
  }

  /** One list after the other. */
  ghost function Joined(said: seq<seq<string>>): seq<string> {
    if said == [] then [] else Joined(said[..|said| - 1]) + said[|said| - 1]
  }

  lemma JoinedOne(turns: seq<string>)
    ensures Joined([turns]) == turns
  {
    assert [turns][..0] == [];
  }

  lemma JoinedLonger(said: seq<seq<string>>, turns: seq<string>)
    ensures Joined(said + [turns]) == Joined(said) + turns
  {
    assert (said + [turns])[..|said|] == said;
  }

  lemma ChainMessages(sid: ID, ns: seq<Node>)
    requires IsChain(sid, ns)
    ensures forall i :: 0 <= i < |ns| ==> ns[i].message.Valid()
  {
    forall i | 0 <= i < |ns| ensures ns[i].message.Valid() { assert Link(sid, ns, i); }
  }

  lemma AllBlocks(sess: Session, ns: seq<Node>)
    requires IsChain(sess.id, ns) && ReadAll(ns) != Broken
    ensures forall k: nat :: k < |ns| && CallsAt(ns, k) != [] ==> BlockAt(ns, k)
  {
    ChainMessages(sess.id, ns);
    forall k: nat | k < |ns| && CallsAt(ns, k) != [] ensures BlockAt(ns, k) {
      Blocks(ns, k);
    }
  }
}
