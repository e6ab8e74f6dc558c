/**
 Watching sessions while others write to the store: every interleaving of store calls (a WriteNode call
 applies its batch and then publishes) with WatchSession streams (subscribe, then snapshot, then live nodes).
 */
module WatchSession {
  import opened Types
  import opened GraphState
  import opened EventFields
  import opened PubSub
  import opened Quads
  import opened CayleyStore
  import opened WriteThrough
  import opened StoreRuns
  import opened WatchSnapshot

  /** One stream; its channel has the same index in the hub. */
  datatype Watcher = Watcher(session: ID, replay: bool, loaded: bool, history: seq<Event>, next: nat, sent: seq<Event>,
                             gone: bool)

  /** `inFlight` are the nodes applied to the store and not yet published. */
  datatype Sys = Sys(hub: Hub, dead: bool, store: Kept, inFlight: multiset<Node>, watchers: seq<Watcher>)

  const INIT := Sys(EMPTY, false, EMPTY_STORE, multiset{}, [])

  datatype Move =
    | Apply(call: Call)
    | Announce(node: Node)
    | Open(sid: ID, replay: bool)
    | Load(c: nat, history: seq<Event>)
    | SendPast(c: nat)
    | SendLive(c: nat)
    | Leave(c: nat)

  /** The event a live node is sent as. */
  function LiveEvent(n: Node): Event {
    NodeEvent(n.sessionID, DEFAULT_NAMES, n)
  }

  predicate Active(s: Sys, c: nat) {
    c < |s.watchers| && !s.watchers[c].gone
  }

  ghost predicate Enabled(s: Sys, m: Move) {
    !s.dead && match m
      case Apply(call) => Allowed(s.store, call)
      case Announce(n) => n in s.inFlight
      case Open(sid, _) => sid != NO_ID
      case Load(c, history) => Active(s, c) && !s.watchers[c].loaded
        && Snapshot(s.store.quads, s.watchers[c].session, history)
      case SendPast(c) => Active(s, c) && s.watchers[c].loaded && s.watchers[c].next < |s.watchers[c].history|
      case SendLive(c) =>
        Active(s, c) && s.watchers[c].loaded && s.watchers[c].next == |s.watchers[c].history|
        && c < |s.hub.chans| && s.hub.chans[c].buf != []
      case Leave(c) => Active(s, c)
  }

  function Written(call: Call): seq<Node> {
    if call.Write? then [call.node] else []
  }

  function HubOp(m: Move): PubSub.Op {
    match m
    case Announce(n) => Publish(n.sessionID, n)
    case Open(sid, _) => Watch(sid)
    case SendLive(c) => Receive(c)
    case Leave(c) => Cancel(c)
    case _ => Elsewhere
  }

  ghost function MoveWatchers(s: Sys, m: Move): seq<Watcher>
    requires Enabled(s, m)
  {
    match m
    case Open(sid, replay) => s.watchers + [Watcher(sid, replay, !replay, [], 0, [], false)]
    case Load(c, history) => s.watchers[c := s.watchers[c].(loaded := true, history := history)]
    case SendPast(c) =>
      var w := s.watchers[c];
      s.watchers[c := w.(next := w.next + 1, sent := w.sent + [w.history[w.next]])]
    case SendLive(c) =>
      var w := s.watchers[c];
      s.watchers[c := w.(sent := w.sent + [LiveEvent(s.hub.chans[c].buf[0])])]
    case Leave(c) => s.watchers[c := s.watchers[c].(gone := true)]
    case _ => s.watchers
  }

  ghost function Next(s: Sys, m: Move): Sys
    requires Enabled(s, m) && Bounded(s.hub)
  {
    var r := PubSub.Step(s.hub, HubOp(m));
    Sys(if r.Ok? then r.value else s.hub, r.Err?,
        if m.Apply? then Perform(s.store, m.call) else s.store,
        if m.Apply? then s.inFlight + multiset(Written(m.call))
        else if m.Announce? then s.inFlight - multiset{m.node}
        else s.inFlight,
        MoveWatchers(s, m))
  }

  /** The state after a run, when each of its moves was enabled. */
  ghost function After(moves: seq<Move>): (r: Option<Sys>)
    ensures r.Some? ==> Bounded(r.value.hub)
  {
    if moves == [] then Some(INIT)
    else
      var before, m := After(moves[..|moves| - 1]), moves[|moves| - 1];
      if before.None? || !Enabled(before.value, m) then None
      else
        var s := before.value;
        if PubSub.Step(s.hub, HubOp(m)).Err? then Some(Next(s, m)) else StepBounded(s.hub, HubOp(m)); Some(Next(s, m))
  }

  // ----- the invariant -----

  ghost predicate InStep(s: Sys, c: nat)
    requires c < |s.watchers| == |s.hub.chans|
  {
    var w, ch := s.watchers[c], s.hub.chans[c];
    w.session == ch.session && w.gone == ch.closed && w.next <= |w.history|
      && (!w.loaded ==> w.history == [] && w.sent == [])
  }

  ghost predicate SysInv(s: Sys) {
    && !s.dead && Bounded(s.hub) && PubSub.Inv(s.hub) && |s.watchers| == |s.hub.chans|
    && (forall c: nat :: c < |s.watchers| ==> InStep(s, c))
    && Faithful(s.store)
    && forall n :: n in s.inFlight ==> Applied(s.store, n)
  }

  lemma InFlightApplied(s: Sys, m: Move, n: Node)
    requires SysInv(s) && Enabled(s, m) && n in Next(s, m).inFlight
    ensures Applied(Next(s, m).store, n)
  {
    hide Faithful, Allowed, StoreRuns.Perform, Applied, Snapshot, PubSub.Inv, InStep;
    if m.Apply? { AppliedGrows(s.store, m.call, n); }
  }

  lemma NextKeepsInv(s: Sys, m: Move)
    requires SysInv(s) && Enabled(s, m)
    ensures SysInv(Next(s, m))
  {
    hide Faithful, Allowed, StoreRuns.Perform, Snapshot, Applied;
    var op, s' := HubOp(m), Next(s, m);
    if m.Leave? { assert InStep(s, m.c); }
    if m.Apply? { StepKeepsFaithful(s.store, m.call); }
    forall n | n in s'.inFlight ensures Applied(s'.store, n) { InFlightApplied(s, m, n); }
    PubSub.StepKeepsInv(s.hub, op);
    StepBounded(s.hub, op);
    if m.Announce? { PublishReaches(s.hub, op.sid, op.node); }
    forall c: nat | c < |s'.watchers| ensures InStep(s', c) {
      if c < |s.watchers| { assert InStep(s, c); }
    }
  }

  /** No interleaving crashes: a stream cancels once, and a publish only finds open channels. */
  lemma {:induction false} RunsAreSound(moves: seq<Move>)
    requires After(moves).Some?
    ensures SysInv(After(moves).value)
  {
    if moves != [] {
      RunsAreSound(moves[..|moves| - 1]);
      NextKeepsInv(After(moves[..|moves| - 1]).value, moves[|moves| - 1]);
    }
  }

  /** In any interleaving the store accepts the write of every node that is new to it. */
  lemma WritesAreAccepted(moves: seq<Move>, n: Node)
    requires After(moves).Some? && Enabled(After(moves).value, Apply(Write(n)))
    ensures var quads := After(moves).value.store.quads;
      Out(quads, n.sessionID, PTimestamp) != {} && Replaced(quads, n.sessionID, PHead) <= quads
  {
    hide Faithful, UnusedNode, Snapshot, PubSub.Inv, InStep;
    RunsAreSound(moves);
    AllowedIsAccepted(After(moves).value.store, n);
  }

  // ----- no gap -----

  /** The WriteNode call that wrote n has returned. */
  ghost predicate Finished(moves: seq<Move>, n: Node) {
    Announce(n) in moves
  }

  /** At step k, n was published while the channel of stream c held exactly 64 nodes. */
  ghost predicate DroppedAt(moves: seq<Move>, k: nat, c: nat, n: Node) {
    k < |moves| && moves[k] == Announce(n)
    && var r := After(moves[..k]); r.Some? && c < |r.value.hub.chans| && |r.value.hub.chans[c].buf| == 64
  }

  ghost predicate Dropped(moves: seq<Move>, c: nat, n: Node) {
    exists k: nat :: DroppedAt(moves, k, c, n)
  }

  /** The stream was sent an event that carries node n, whole. */
  ghost predicate SentLive(sent: seq<Event>, n: Node) {
    exists e :: e in sent && Carries(e, n.sessionID, n, DEFAULT_NAMES.nodeAppended)
  }

  /** Where a finished node can be, for stream c. */
  ghost predicate AccountedFor(moves: seq<Move>, s: Sys, c: nat, n: Node)
    requires c < |s.watchers| == |s.hub.chans|
  {
    || Shows(s.watchers[c].history, n)
    || SentLive(s.watchers[c].sent, n)
    || n in s.hub.chans[c].buf
    || Dropped(moves, c, n)
  }

  lemma DroppedLonger(moves: seq<Move>, c: nat, n: Node)
    requires moves != []
    ensures var m := |moves| - 1; Dropped(moves[..m], c, n) || DroppedAt(moves, m, c, n) ==> Dropped(moves, c, n)
  {
    var m := |moves| - 1;
    if Dropped(moves[..m], c, n) {
      var k: nat :| DroppedAt(moves[..m], k, c, n);
      assert moves[..m][..k] == moves[..k];
      assert DroppedAt(moves, k, c, n);
    }
  }

  lemma StaysApplied(s: Sys, m: Move, n: Node)
    requires SysInv(s) && Enabled(s, m) && (Applied(s.store, n) || m == Announce(n))
    ensures Applied(Next(s, m).store, n)
  {
    hide Faithful, Allowed, StoreRuns.Perform, Applied, Snapshot, PubSub.Inv, InStep;
    if m.Apply? { AppliedGrows(s.store, m.call, n); }
  }

  lemma {:induction false} FinishedIsApplied(moves: seq<Move>, n: Node)
    requires After(moves).Some? && Finished(moves, n)
    ensures Applied(After(moves).value.store, n)
  {
    hide SysInv, Applied, Enabled, PubSub.Step, StoreRuns.Perform, Bounded, HubOp;
    var before, m := moves[..|moves| - 1], moves[|moves| - 1];
    RunsAreSound(before);
    assert moves == before + [m];
    if Finished(before, n) { FinishedIsApplied(before, n); }
    StaysApplied(After(before).value, m, n);
  }

  lemma LoadCovers(s: Sys, m: Move, n: Node)
    requires SysInv(s) && Enabled(s, m) && m.Load?
    requires Applied(s.store, n) && n.sessionID == s.watchers[m.c].session
    ensures Shows(Next(s, m).watchers[m.c].history, n)
  {
    var sid := n.sessionID;
    assert EntryAt(s.store, sid);
    var e := s.store.table[sid];
    var i :| 0 <= i < |e.nodes| && e.nodes[i] == n;
    SnapshotShowsStored(s.store.quads, sid, e, m.history, i);
  }

  /** A move that is not a load leaves the history of stream c alone and only adds to what it sent. */
  lemma StreamGrows(s: Sys, m: Move, c: nat)
    requires SysInv(s) && Enabled(s, m) && Active(s, c) && s.watchers[c].loaded
    ensures SysInv(Next(s, m)) && c < |Next(s, m).watchers|
    ensures Next(s, m).watchers[c].history == s.watchers[c].history
    ensures forall e :: e in s.watchers[c].sent ==> e in Next(s, m).watchers[c].sent
  {
    NextKeepsInv(s, m);
  }

  /** What leaves the buffer of stream c is sent, and a new node enters it unless it is full. */
  lemma BufferAccounted(s: Sys, m: Move, c: nat, n: Node)
    requires SysInv(s) && Enabled(s, m) && Active(s, c)
    requires n in s.hub.chans[c].buf
             || (m == Announce(n) && n.sessionID == s.watchers[c].session && |s.hub.chans[c].buf| != BUFFER)
    ensures var s' := Next(s, m);
      SysInv(s') && c < |s'.watchers| && (n in s'.hub.chans[c].buf || SentLive(s'.watchers[c].sent, n))
  {
    hide Snapshot, Faithful, Allowed, StoreRuns.Perform;
    NextKeepsInv(s, m);
    assert InStep(s, c);
    PubSub.DeliveryStep(s.hub, HubOp(m), c);
    if m.Announce? {
      PublishReaches(s.hub, m.node.sessionID, m.node);
    } else if m == SendLive(c) {
      var buf := s.hub.chans[c].buf;
      assert buf == [buf[0]] + buf[1..];
      LiveCarries(buf[0]);
      assert LiveEvent(buf[0]) in Next(s, m).watchers[c].sent;
    }
  }

  /** One move keeps a node accounted for, and accounts for the node it announces. */
  lemma StaysAccountedFor(moves: seq<Move>, s: Sys, m: Move, c: nat, n: Node)
    requires After(moves) == Some(s) && SysInv(s) && Enabled(s, m)
    requires Active(s, c) && s.watchers[c].loaded && n.sessionID == s.watchers[c].session
    requires m == Announce(n) || AccountedFor(moves, s, c, n)
    ensures SysInv(Next(s, m)) && c < |Next(s, m).watchers| && AccountedFor(moves + [m], Next(s, m), c, n)
  {
    StreamGrows(s, m, c);
    var all := moves + [m];
    assert all[..|moves|] == moves;
    if n in s.hub.chans[c].buf || (m == Announce(n) && |s.hub.chans[c].buf| != BUFFER) {
      BufferAccounted(s, m, c, n);
    } else if m == Announce(n) {
      assert DroppedAt(all, |moves|, c, n);
    } else if Dropped(moves, c, n) {
      DroppedLonger(all, c, n);
    }
  }

  /** A stream with its snapshot had it before any move but its own load. */
  lemma LoadedBefore(s: Sys, m: Move, c: nat)
    requires SysInv(s) && Enabled(s, m) && m != Leave(c) && !(m.Load? && m.c == c)
    requires var s' := Next(s, m);
      c < |s'.watchers| && !s'.watchers[c].gone && s'.watchers[c].replay && s'.watchers[c].loaded
    ensures Active(s, c) && s.watchers[c].replay && s.watchers[c].loaded
    ensures s.watchers[c].session == Next(s, m).watchers[c].session
  {
  }

  lemma AfterLonger(moves: seq<Move>) returns (s: Sys)
    requires moves != [] && After(moves).Some?
    ensures After(moves[..|moves| - 1]) == Some(s) && SysInv(s) && Enabled(s, moves[|moves| - 1])
    ensures After(moves) == Some(Next(s, moves[|moves| - 1])) && SysInv(After(moves).value)
  {
    hide SysInv, Enabled, Next, PubSub.Step, Bounded, HubOp;
    s := After(moves[..|moves| - 1]).value;
    RunsAreSound(moves);
    RunsAreSound(moves[..|moves| - 1]);
  }

  /**
   No gap: once a stream that asked for the history has taken its snapshot, and until it leaves, each node of
   its session whose write has finished was replayed, or was sent live, or is still buffered, or was dropped at
   a moment when the stream's channel held exactly 64 nodes.
   */
  lemma {:induction false} NoGap(moves: seq<Move>, c: nat, n: Node)
    requires After(moves).Some?
    requires var s := After(moves).value;
      Active(s, c) && s.watchers[c].replay && s.watchers[c].loaded && s.watchers[c].session == n.sessionID
    requires Finished(moves, n)
    ensures |After(moves).value.watchers| == |After(moves).value.hub.chans|
    ensures AccountedFor(moves, After(moves).value, c, n)
  {
    hide Shows, Snapshot, Allowed, Faithful, PubSub.Step, PubSub.Inv;
    if moves != [] {
      var s := AfterLonger(moves);
      var before, m := moves[..|moves| - 1], moves[|moves| - 1];
      assert moves == before + [m];
      if m.Load? && m.c == c {
        FinishedIsApplied(before, n);
        LoadCovers(s, m, n);
      } else {
        LoadedBefore(s, m, c);
        if Finished(before, n) { NoGap(before, c, n); }
        StaysAccountedFor(before, s, m, c, n);
      }
    }
  }

  /** A stream that sent its history, drained its channel and lost nothing has sent every finished node. */
  lemma CaughtUp(moves: seq<Move>, c: nat, n: Node)
    requires After(moves).Some?
    requires var s := After(moves).value;
      Active(s, c) && s.watchers[c].replay && s.watchers[c].loaded && s.watchers[c].session == n.sessionID
    requires Finished(moves, n) && !Dropped(moves, c, n)
    requires var s := After(moves).value;
      s.watchers[c].next == |s.watchers[c].history| && c < |s.hub.chans| && s.hub.chans[c].buf == []
    ensures Shows(After(moves).value.watchers[c].history, n) || SentLive(After(moves).value.watchers[c].sent, n)
  {
    NoGap(moves, c, n);
  }

  // ----- order -----

  function HubOps(moves: seq<Move>): seq<PubSub.Op> {
    seq(|moves|, i requires 0 <= i < |moves| => HubOp(moves[i]))
  }

  lemma {:induction false} HubFollows(moves: seq<Move>)
    requires After(moves).Some?
    ensures PubSub.Run(HubOps(moves)) == Ok(After(moves).value.hub)
  {
    if moves != [] {
      var s := AfterLonger(moves);
      HubFollows(moves[..|moves| - 1]);
      assert HubOps(moves)[..|moves| - 1] == HubOps(moves[..|moves| - 1]);
    }
  }

  /**
   What was sent is a prefix of the history followed, one by one, by events that carry what was taken from the
   channel; live nodes come last.
   */
  ghost predicate SentSoFar(w: Watcher, live: seq<Node>) {
    && w.next <= |w.history| && |w.sent| == w.next + |live| && w.sent[..w.next] == w.history[..w.next]
    && (!w.loaded || w.next < |w.history| ==> live == [])
    && forall i :: 0 <= i < |live| ==>
         Carries(w.sent[w.next + i], live[i].sessionID, live[i], DEFAULT_NAMES.nodeAppended)
  }

  lemma LiveCarries(n: Node)
    ensures Carries(LiveEvent(n), n.sessionID, n, DEFAULT_NAMES.nodeAppended)
  {
  }

  lemma OneMoreLive(w: Watcher, live: seq<Node>, n: Node)
    requires SentSoFar(w, live) && w.loaded && w.next == |w.history|
    ensures SentSoFar(w.(sent := w.sent + [LiveEvent(n)]), live + [n])
  {
    LiveCarries(n);
    var sent := w.sent + [LiveEvent(n)];
    assert sent[..w.next] == w.sent[..w.next];
  }

  lemma OneMorePast(w: Watcher)
    requires SentSoFar(w, []) && w.next < |w.history|
    ensures SentSoFar(w.(next := w.next + 1, sent := w.sent + [w.history[w.next]]), [])
  {
    assert w.sent + [w.history[w.next]] == w.history[..w.next + 1];
  }

  lemma SentLiveStep(s: Sys, m: Move, c: nat, live: seq<Node>)
    requires SysInv(s) && Enabled(s, m) && m == SendLive(c) && SentSoFar(s.watchers[c], live)
    ensures SentSoFar(Next(s, m).watchers[c], live + PubSub.TakenOf(s.hub, HubOp(m), c))
  {
    hide Snapshot, Faithful, Allowed, StoreRuns.Perform, PubSub.Step, PubSub.Inv, SentSoFar, LiveEvent;
    assert InStep(s, c);
    OneMoreLive(s.watchers[c], live, s.hub.chans[c].buf[0]);
  }

  lemma NotTaken(s: Sys, m: Move, c: nat)
    requires m != SendLive(c)
    ensures PubSub.TakenOf(s.hub, HubOp(m), c) == []
  {
  }

  lemma NoLiveYet(w: Watcher, live: seq<Node>)
    requires SentSoFar(w, live) && w.next < |w.history|
    ensures live == []
  {
  }

  lemma SentPastStep(s: Sys, m: Move, c: nat, live: seq<Node>)
    requires SysInv(s) && Enabled(s, m) && m != SendLive(c) && c < |s.watchers| && SentSoFar(s.watchers[c], live)
    ensures SentSoFar(Next(s, m).watchers[c], live + PubSub.TakenOf(s.hub, HubOp(m), c))
  {
    hide Snapshot, Faithful, Allowed, StoreRuns.Perform, PubSub.Step, PubSub.Inv, HubOp, PubSub.TakenOf;
    NotTaken(s, m, c);
    assert InStep(s, c);
    assert live + [] == live;
    if m == SendPast(c) {
      hide SentSoFar;
      NoLiveYet(s.watchers[c], live);
      OneMorePast(s.watchers[c]);
    }
  }

  lemma SentStep(s: Sys, m: Move, c: nat, live: seq<Node>)
    requires SysInv(s) && Enabled(s, m) && c < |s.watchers| && SentSoFar(s.watchers[c], live)
    ensures SentSoFar(Next(s, m).watchers[c], live + PubSub.TakenOf(s.hub, HubOp(m), c))
  {
    hide SysInv, Enabled, SentSoFar, PubSub.TakenOf;
    if m == SendLive(c) { SentLiveStep(s, m, c, live); } else { SentPastStep(s, m, c, live); }
  }

  /** A stream that just opened has sent nothing. */
  lemma SentAtOpening(s: Sys, m: Move, c: nat)
    requires SysInv(s) && Enabled(s, m) && c >= |s.watchers|
    ensures PubSub.TakenOf(s.hub, HubOp(m), c) == []
    ensures c < |Next(s, m).watchers| ==> SentSoFar(Next(s, m).watchers[c], [])
  {
    hide Faithful, Allowed, Snapshot, StoreRuns.Perform;
  }

  lemma ReceivedStep(moves: seq<Move>, s: Sys, c: nat)
    requires moves != [] && After(moves).Some? && After(moves[..|moves| - 1]) == Some(s)
    ensures PubSub.Received(HubOps(moves), c)
            == PubSub.Received(HubOps(moves[..|moves| - 1]), c) + PubSub.TakenOf(s.hub, HubOp(moves[|moves| - 1]), c)
  {
    hide SysInv, Enabled, PubSub.Step, PubSub.TakenOf, HubOp, After;
    HubFollows(moves[..|moves| - 1]);
    assert HubOps(moves)[..|moves| - 1] == HubOps(moves[..|moves| - 1]);
  }

  lemma {:induction false} SentIsHistoryThenLive(moves: seq<Move>, c: nat)
    requires After(moves).Some?
    ensures if c < |After(moves).value.watchers|
            then SentSoFar(After(moves).value.watchers[c], PubSub.Received(HubOps(moves), c))
            else PubSub.Received(HubOps(moves), c) == []
  {
    if moves != [] {
      hide SysInv, Enabled, Next, SentSoFar, HubOps, PubSub.Received, PubSub.TakenOf, After;
      var before, m := moves[..|moves| - 1], moves[|moves| - 1];
      var s := AfterLonger(moves);
      SentIsHistoryThenLive(before, c);
      ReceivedStep(moves, s, c);
      if c < |s.watchers| {
        SentStep(s, m, c, PubSub.Received(HubOps(before), c));
        WatchersStay(s, m);
      } else {
        SentAtOpening(s, m, c);
      }
    }
  }

  lemma WatchersStay(s: Sys, m: Move)
    requires SysInv(s) && Enabled(s, m)
    ensures |Next(s, m).watchers| >= |s.watchers|
  {
    hide Faithful, Allowed, Snapshot, StoreRuns.Perform;
  }

  /**
   Stream order: a stream sends its history first and then live nodes; the live nodes, with those still
   buffered, are an in-order subsequence of what was published to its session since it subscribed.
   */
  lemma StreamOrder(moves: seq<Move>, i: nat, c: nat, sid: ID) returns (live: seq<Node>, idx: seq<nat>)
    requires After(moves).Some? && PubSub.MadeAt(HubOps(moves), i, c, sid)
    ensures var s := After(moves).value;
      && c < |s.watchers| == |s.hub.chans|
      && SentSoFar(s.watchers[c], live)
      && Embeds(live + s.hub.chans[c].buf, PublishedUntilCancel(HubOps(moves)[i + 1..], sid, c), idx)
  {
    RunsAreSound(moves);
    HubFollows(moves);
    live := PubSub.Received(HubOps(moves), c);
    idx := SubscriptionSafety(HubOps(moves), i, c, sid);
    SentIsHistoryThenLive(moves, c);
  }

  // ----- progress -----

  /** The stream has sent its whole history and emptied its channel. */
  ghost predicate Drained(s: Sys, c: nat) {
    && c < |s.watchers| && s.watchers[c].next == |s.watchers[c].history|
    && c < |s.hub.chans| && s.hub.chans[c].buf == []
  }

  lemma OneMove(moves: seq<Move>, m: Move)
    requires After(moves).Some? && Enabled(After(moves).value, m)
    ensures SysInv(After(moves).value) && After(moves + [m]) == Some(Next(After(moves).value, m))
  {
    hide SysInv, Enabled, Next, PubSub.Step, HubOp;
    RunsAreSound(moves);
    assert (moves + [m])[..|moves|] == moves;
  }

  lemma SendEffect(s: Sys, m: Move, c: nat)
    requires SysInv(s) && Enabled(s, m) && m in {SendPast(c), SendLive(c)}
    ensures var s' := Next(s, m);
      && SysInv(s') && Active(s', c) && s'.watchers[c].loaded && s'.inFlight == s.inFlight
      && s'.watchers[c].history == s.watchers[c].history
      && s'.watchers[c].next == s.watchers[c].next + (if m == SendPast(c) then 1 else 0)
      && s'.hub.chans[c].buf == if m == SendPast(c) then s.hub.chans[c].buf else s.hub.chans[c].buf[1..]
  {
    hide Snapshot, Faithful, Allowed, StoreRuns.Perform, PubSub.Inv;
    NextKeepsInv(s, m);
    assert InStep(s, c);
  }

  /** At any point, a stream that has its snapshot can send all that is left on its own. */
  lemma {:induction false} CanCatchUp(moves: seq<Move>, c: nat) returns (more: seq<Move>)
    requires After(moves).Some? && Active(After(moves).value, c) && After(moves).value.watchers[c].loaded
    ensures After(moves + more).Some? && Drained(After(moves + more).value, c)
    ensures Active(After(moves + more).value, c) && After(moves + more).value.inFlight == After(moves).value.inFlight
    ensures After(moves + more).value.watchers[c].history == After(moves).value.watchers[c].history
    ensures forall m :: m in more ==> m in {SendPast(c), SendLive(c)}
    decreases
      var s := After(moves).value;
      |s.watchers[c].history| - s.watchers[c].next + if c < |s.hub.chans| then |s.hub.chans[c].buf| else 0
  {
    hide After, Snapshot, Faithful, Allowed, Next, PubSub.Step, PubSub.Inv;
    RunsAreSound(moves);
    var s := After(moves).value;
    assert InStep(s, c);
    if Drained(s, c) {
      more := [];
      assert moves + [] == moves;
    } else {
      var m := if s.watchers[c].next < |s.watchers[c].history| then SendPast(c) else SendLive(c);
      OneMove(moves, m);
      SendEffect(s, m, c);
      more := CanCatchUp(moves + [m], c);
      assert (moves + [m]) + more == moves + ([m] + more);
      more := [m] + more;
    }
  }

  lemma AnnounceEffect(s: Sys, n: Node, c: nat)
    requires SysInv(s) && n in s.inFlight && Active(s, c) && s.watchers[c].loaded
    ensures Enabled(s, Announce(n)) && s.inFlight[n] > 0
    ensures var s' := Next(s, Announce(n));
      && Active(s', c) && s'.watchers[c] == s.watchers[c] && s'.inFlight == s.inFlight - multiset{n}
  {
    hide Snapshot, Faithful, Allowed, StoreRuns.Perform, PubSub.Inv;
  }

  /** And so can the writers: all writes in flight can return, and the stream send what they announce, or lose it. */
  lemma {:induction false} CanSettle(moves: seq<Move>, c: nat) returns (more: seq<Move>)
    requires After(moves).Some? && Active(After(moves).value, c) && After(moves).value.watchers[c].loaded
    ensures After(moves + more).Some? && Drained(After(moves + more).value, c)
    ensures After(moves + more).value.inFlight == multiset{}
    ensures forall n :: n in After(moves).value.inFlight ==> Announce(n) in more
    decreases |After(moves).value.inFlight|
  {
    hide After, SysInv, Next, Enabled, Drained;
    RunsAreSound(moves);
    var s := After(moves).value;
    if s.inFlight == multiset{} {
      more := CanCatchUp(moves, c);
    } else {
      var n :| n in s.inFlight;
      AnnounceEffect(s, n, c);
      OneMove(moves, Announce(n));
      more := CanSettle(moves + [Announce(n)], c);
      assert (moves + [Announce(n)]) + more == moves + ([Announce(n)] + more);
      forall x | x in s.inFlight && x != n ensures Announce(x) in more {
        assert x in s.inFlight - multiset{n};
      }
      more := [Announce(n)] + more;
    }
  }
}
