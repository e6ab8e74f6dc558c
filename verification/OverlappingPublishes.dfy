/**
 Publishes that overlap. A publish holds only the read lock, so several may be under way at once, each
 trying its subscribers one by one; watch and cancel take the write lock and wait for all of them.
 */
module OverlappingPublishes {
  import opened Types
  import opened Sequences
  import opened PubSub

  /** One publish: the subscribers it found when it took the lock, and how many of them it has tried. */
  datatype Task = Task(sid: ID, node: Node, targets: seq<nat>, next: nat, done: bool)

  /** All publishes ever begun, in the order in which they took the lock. */
  datatype Shared = Shared(hub: Hub, tasks: seq<Task>, panic: Option<Panic>)

  const START := Shared(EMPTY, [], None)

  datatype Move =
    | Begin(sid: ID, node: Node)
    | Try(k: nat)
    | Finish(k: nat)
    | Subscribe(sid: ID)
    | Unsubscribe(c: nat)
    | Take(c: nat)

  predicate Running(s: Shared, k: nat) {
    k < |s.tasks| && !s.tasks[k].done
  }

  predicate Idle(s: Shared) {
    forall k: nat :: k < |s.tasks| ==> !Running(s, k)
  }

  predicate Trying(s: Shared, m: Move, c: nat) {
    m.Try? && m.k < |s.tasks| && s.tasks[m.k].next < |s.tasks[m.k].targets|
      && s.tasks[m.k].targets[s.tasks[m.k].next] == c
  }

  predicate Enabled(s: Shared, m: Move) {
    s.panic.None? && match m
      case Begin(_, _) => true
      case Try(k) => Running(s, k) && s.tasks[k].next < |s.tasks[k].targets|
        && s.tasks[k].targets[s.tasks[k].next] < |s.hub.chans|
      case Finish(k) => Running(s, k) && s.tasks[k].next == |s.tasks[k].targets|
      case Subscribe(_) => Idle(s)
      case Unsubscribe(c) => Idle(s) && c < |s.hub.chans|
      case Take(c) => c < |s.hub.chans| && s.hub.chans[c].buf != []
  }

  function Next(s: Shared, m: Move): Shared
    requires Enabled(s, m)
  {
    match m
    case Begin(sid, node) => s.(tasks := s.tasks + [Task(sid, node, Subs(s.hub, sid), 0, false)])
    case Try(k) =>
      var t := s.tasks[k];
      var c := t.targets[t.next];
      if s.hub.chans[c].closed then s.(panic := Some(SendOnClosed))
      else s.(hub := s.hub.(chans := s.hub.chans[c := TrySend(s.hub.chans[c], t.node)]),
        tasks := s.tasks[k := t.(next := t.next + 1)])
    case Finish(k) => s.(tasks := s.tasks[k := s.tasks[k].(done := true)])
    case Subscribe(sid) => s.(hub := AfterWatch(s.hub, sid))
    case Unsubscribe(c) =>
      if s.hub.chans[c].closed then s.(panic := Some(CloseOfClosed)) else s.(hub := AfterCancel(s.hub, c))
    case Take(c) => s.(hub := AfterReceive(s.hub, c))
  }

  /** The state after a run, when each of its moves was enabled. */
  function After(moves: seq<Move>): Option<Shared> {
    if moves == [] then Some(START)
    else
      var before, m := After(moves[..|moves| - 1]), moves[|moves| - 1];
      if before.None? || !Enabled(before.value, m) then None else Some(Next(before.value, m))
  }

  // ----- what one channel sees -----

  /** The step that channel c sees of a move: publishes count when they try c. */
  function SeenBy(s: Shared, m: Move, c: nat): seq<Op> {
    if Trying(s, m, c) then [Publish(s.tasks[m.k].sid, s.tasks[m.k].node)]
    else if m.Subscribe? then [Watch(m.sid)]
    else if m.Unsubscribe? then [Cancel(m.c)]
    else if m == Take(c) then [Receive(c)]
    else []
  }

  function TakenBy(s: Shared, m: Move, c: nat): seq<Node> {
    if m == Take(c) && c < |s.hub.chans| && s.hub.chans[c].buf != [] then [s.hub.chans[c].buf[0]] else []
  }

  ghost function OfferedBy(s: Shared, m: Move, c: nat): seq<Offer> {
    if Trying(s, m, c) && c < |s.hub.chans| then [Offer(s.tasks[m.k].node, |s.hub.chans[c].buf| == 64)] else []
  }

  function TriedBy(s: Shared, m: Move, c: nat): seq<nat> {
    if Trying(s, m, c) then [m.k] else []
  }

  function Seen(moves: seq<Move>, c: nat): seq<Op> {
    if moves == [] then []
    else
      var r := After(moves[..|moves| - 1]);
      Seen(moves[..|moves| - 1], c) + if r.Some? then SeenBy(r.value, moves[|moves| - 1], c) else []
  }

  /** What was taken from channel c. */
  function Taken(moves: seq<Move>, c: nat): seq<Node> {
    if moves == [] then []
    else
      var r := After(moves[..|moves| - 1]);
      Taken(moves[..|moves| - 1], c) + if r.Some? then TakenBy(r.value, moves[|moves| - 1], c) else []
  }

  /** What was offered to channel c; full says that it was dropped. */
  ghost function OfferedTo(moves: seq<Move>, c: nat): seq<Offer> {
    if moves == [] then []
    else
      var r := After(moves[..|moves| - 1]);
      OfferedTo(moves[..|moves| - 1], c) + if r.Some? then OfferedBy(r.value, moves[|moves| - 1], c) else []
  }

  /** The publishes that tried channel c, in the order of their tries. */
  function Tried(moves: seq<Move>, c: nat): seq<nat> {
    if moves == [] then []
    else
      var r := After(moves[..|moves| - 1]);
      Tried(moves[..|moves| - 1], c) + if r.Some? then TriedBy(r.value, moves[|moves| - 1], c) else []
  }

  // ----- each channel sees a run without overlaps -----

  /** The hubs agree on the subscriptions, on who is open, and on all of channel c. */
  ghost predicate SameFor(a: Hub, b: Hub, c: nat) {
    && a.subs == b.subs && |a.chans| == |b.chans|
    && (forall t :: 0 <= t < |a.chans| ==>
      a.chans[t].session == b.chans[t].session && a.chans[t].closed == b.chans[t].closed)
    && (c < |a.chans| ==> a.chans[c] == b.chans[c])
  }

  /** A publish under way found exactly today's subscribers, each once; finished ones have tried all of theirs. */
  ghost predicate TaskSound(s: Shared, k: nat)
    requires k < |s.tasks|
  {
    var t := s.tasks[k];
    && t.next <= |t.targets| && Distinct(t.targets)
    && (t.done ==> t.next == |t.targets|)
    && (!t.done ==> t.targets == Subs(s.hub, t.sid))
  }

  ghost predicate TasksSound(s: Shared) {
    forall k: nat {:trigger TaskSound(s, k)} :: k < |s.tasks| ==> TaskSound(s, k)
  }

  /** One move on the side of channel c: nothing, or one step of the hub without overlaps. */
  ghost predicate StepsAlong(s: Shared, m: Move, h: Hub, c: nat)
    requires Enabled(s, m) && Bounded(h)
  {
    var s', seen := Next(s, m), SeenBy(s, m, c);
    if seen == [] then s'.panic.None? && SameFor(s'.hub, h, c) && TakenBy(s, m, c) == [] && OfferedBy(s, m, c) == []
    else
      && |seen| == 1
      && (s'.panic.None? <==> PubSub.Step(h, seen[0]).Ok?)
      && (s'.panic.None? ==> SameFor(s'.hub, PubSub.Step(h, seen[0]).value, c))
      && TakenBy(s, m, c) == TakenOf(h, seen[0], c) && OfferedBy(s, m, c) == OfferOf(h, seen[0], c)
      && s'.panic != Some(SendOnClosed)
  }

  /** A publish only finds open channels of its session. */
  lemma TargetOpen(s: Shared, k: nat, h: Hub, c: nat, t: nat)
    requires TasksSound(s) && Running(s, k) && SameFor(s.hub, h, c) && PubSub.Inv(h)
    requires t in s.tasks[k].targets
    ensures t < |s.hub.chans| && s.hub.chans[t].session == s.tasks[k].sid && !s.hub.chans[t].closed
  {
    assert TaskSound(s, k);
    assert Subscribed(h, s.tasks[k].sid, t);
  }

  lemma TryStepsAlong(s: Shared, m: Move, h: Hub, c: nat)
    requires Enabled(s, m) && m.Try? && TasksSound(s) && SameFor(s.hub, h, c) && PubSub.Inv(h) && Bounded(h)
    ensures StepsAlong(s, m, h, c)
  {
    var t := s.tasks[m.k];
    var target := t.targets[t.next];
    TargetOpen(s, m.k, h, c, target);
    if target == c { PublishReaches(h, t.sid, t.node); }
  }

  lemma MoveStepsAlong(s: Shared, m: Move, h: Hub, c: nat)
    requires Enabled(s, m) && TasksSound(s) && SameFor(s.hub, h, c) && PubSub.Inv(h) && Bounded(h)
    ensures StepsAlong(s, m, h, c)
  {
    if m.Try? { TryStepsAlong(s, m, h, c); }
  }

  lemma MoveKeepsTasks(s: Shared, m: Move, h: Hub, c: nat)
    requires Enabled(s, m) && TasksSound(s) && SameFor(s.hub, h, c) && PubSub.Inv(h)
    ensures TasksSound(Next(s, m))
  {
    var s' := Next(s, m);
    forall k: nat | k < |s'.tasks| ensures TaskSound(s', k) {
      if k < |s.tasks| { assert TaskSound(s, k) && !(Idle(s) && Running(s, k)); }
      if m.Begin? { assert Distinct(Subs(h, m.sid)); }
    }
  }

  /** What holds of a run that has not panicked, for channel c. */
  ghost predicate Follows(moves: seq<Move>, s: Shared, c: nat) {
    && TasksSound(s) && Run(Seen(moves, c)).Ok?
    && SameFor(s.hub, Run(Seen(moves, c)).value, c)
    && Taken(moves, c) == Received(Seen(moves, c), c)
    && OfferedTo(moves, c) == Offers(Seen(moves, c), c)
  }

  lemma SeenLonger(ops: seq<Op>, op: Op, c: nat)
    requires Run(ops).Ok?
    ensures var h := Run(ops).value;
      && Run(ops + [op]) == PubSub.Step(h, op)
      && Received(ops + [op], c) == Received(ops, c) + TakenOf(h, op, c)
      && Offers(ops + [op], c) == Offers(ops, c) + OfferOf(h, op, c)
  {
    assert (ops + [op])[..|ops + [op]| - 1] == ops;
  }

  lemma FollowsStep(moves: seq<Move>, s: Shared, m: Move, c: nat)
    requires After(moves) == Some(s) && Follows(moves, s, c) && Enabled(s, m) && Next(s, m).panic.None?
    ensures Follows(moves + [m], Next(s, m), c)
  {
    hide PubSub.Inv, PubSub.Step, SameFor, TasksSound, Enabled, Next, SeenBy;
    hide TakenBy, OfferedBy, Received, Offers, TakenOf, OfferOf;
    var ops, all := Seen(moves, c), moves + [m];
    assert all[..|all| - 1] == moves && all[|all| - 1] == m;
    var h, seen := Run(ops).value, SeenBy(s, m, c);
    RunInv(ops);
    MoveStepsAlong(s, m, h, c);
    MoveKeepsTasks(s, m, h, c);
    if seen == [] {
      assert ops + [] == ops;
    } else {
      assert seen == [seen[0]];
      SeenLonger(ops, seen[0], c);
    }
  }

  lemma StartFollows(c: nat)
    ensures Follows([], START, c)
  {
  }

  lemma PanicIsLast(moves: seq<Move>)
    requires moves != [] && After(moves).Some?
    ensures var before := After(moves[..|moves| - 1]);
      before.Some? && before.value.panic.None? && Enabled(before.value, moves[|moves| - 1])
      && After(moves) == Some(Next(before.value, moves[|moves| - 1]))
  {
  }

  /**
   Whatever overlaps, each channel sees a run in which nothing does: the same subscriptions, the same
   buffer, the same nodes taken and offered. And no publish ever sends on a closed channel.
   */
  lemma {:induction false} EachChannelSeesARun(moves: seq<Move>, c: nat)
    requires After(moves).Some?
    ensures After(moves).value.panic != Some(SendOnClosed)
    ensures After(moves).value.panic.None? ==> Follows(moves, After(moves).value, c)
  {
    hide Follows, Enabled, Next, PubSub.Inv, SameFor, StepsAlong, TasksSound;
    if moves == [] {
      StartFollows(c);
    } else {
      var before, m := moves[..|moves| - 1], moves[|moves| - 1];
      PanicIsLast(moves);
      EachChannelSeesARun(before, c);
      var s := After(before).value;
      NoSendPanic(before, s, m, c);
      assert moves == before + [m];
      if Next(s, m).panic.None? { FollowsStep(before, s, m, c); }
    }
  }

  lemma NoSendPanic(moves: seq<Move>, s: Shared, m: Move, c: nat)
    requires Follows(moves, s, c) && Enabled(s, m)
    ensures Next(s, m).panic != Some(SendOnClosed)
  {
    RunInv(Seen(moves, c));
    if m.Try? {
      var t := s.tasks[m.k];
      TargetOpen(s, m.k, Run(Seen(moves, c)).value, c, t.targets[t.next]);
    }
  }

  // ----- each publish tries each of its subscribers once -----

  /** Publish k has tried channel c. */
  ghost predicate HasTried(s: Shared, k: nat, c: nat) {
    k < |s.tasks| && s.tasks[k].next <= |s.tasks[k].targets| && c in s.tasks[k].targets[..s.tasks[k].next]
  }

  /** The tries at channel c are those the publishes have made, each once, with their nodes. */
  ghost predicate TriesRecorded(tried: seq<nat>, offers: seq<Offer>, s: Shared, c: nat) {
    && Distinct(tried) && |offers| == |tried|
    && (forall k: nat :: k in tried <==> HasTried(s, k, c))
    && forall i :: 0 <= i < |tried| ==> tried[i] < |s.tasks| && offers[i].node == s.tasks[tried[i]].node
  }

  lemma TryAdvances(s: Shared, m: Move, k: nat, c: nat)
    requires Enabled(s, m) && TasksSound(s) && TasksSound(Next(s, m)) && Next(s, m).panic.None?
    ensures HasTried(Next(s, m), k, c) <==> HasTried(s, k, c) || (Trying(s, m, c) && m.k == k)
    ensures Trying(s, m, c) ==> !HasTried(s, m.k, c)
    ensures k < |s.tasks| ==> k < |Next(s, m).tasks| && Next(s, m).tasks[k].node == s.tasks[k].node
  {
    if k < |s.tasks| { assert TaskSound(s, k) && TaskSound(Next(s, m), k); }
    if m.Try? {
      var t := s.tasks[m.k];
      assert TaskSound(s, m.k);
      assert t.targets[..t.next + 1] == t.targets[..t.next] + [t.targets[t.next]];
    }
  }

  lemma TriesStep(tried: seq<nat>, offers: seq<Offer>, s: Shared, m: Move, c: nat)
    requires Enabled(s, m) && TasksSound(s) && TasksSound(Next(s, m)) && Next(s, m).panic.None?
    requires TriesRecorded(tried, offers, s, c)
    ensures TriesRecorded(tried + TriedBy(s, m, c), offers + OfferedBy(s, m, c), Next(s, m), c)
  {
    hide Next, HasTried, TasksSound;
    var tried', offers', s' := tried + TriedBy(s, m, c), offers + OfferedBy(s, m, c), Next(s, m);
    if m.Try? { TryAdvances(s, m, m.k, c); }
    forall k: nat ensures k in tried' <==> HasTried(s', k, c) { TryAdvances(s, m, k, c); }
    forall i | 0 <= i < |tried'| ensures tried'[i] < |s'.tasks| && offers'[i].node == s'.tasks[tried'[i]].node {
      TryAdvances(s, m, tried'[i], c);
    }
  }

  lemma {:induction false} TriesAre(moves: seq<Move>, c: nat)
    requires After(moves).Some? && After(moves).value.panic.None?
    ensures TasksSound(After(moves).value)
    ensures TriesRecorded(Tried(moves, c), OfferedTo(moves, c), After(moves).value, c)
  {
    hide Enabled, Next, TasksSound, TriesRecorded, TriedBy, OfferedBy;
    EachChannelSeesARun(moves, c);
    SoundTasks(moves, After(moves).value, c);
    if moves == [] {
      NoTries(c);
    } else {
      var before, m := moves[..|moves| - 1], moves[|moves| - 1];
      PanicIsLast(moves);
      TriesAre(before, c);
      TriesStep(Tried(before, c), OfferedTo(before, c), After(before).value, m, c);
    }
  }

  lemma SoundTasks(moves: seq<Move>, s: Shared, c: nat)
    requires Follows(moves, s, c)
    ensures TasksSound(s)
  {
  }

  lemma NoTries(c: nat)
    ensures TriesRecorded([], [], START, c)
  {
  }

  function NodesOf(tasks: seq<Task>, ks: seq<nat>): seq<Node>
    requires forall i :: 0 <= i < |ks| ==> ks[i] < |tasks|
  {
    seq(|ks|, i requires 0 <= i < |ks| => tasks[ks[i]].node)
  }

  /**
   Safety of one channel, however publishes overlap: what was taken from it, followed by what is still
   buffered, is an in-order subsequence of the publishes in the order in which they tried it; and it is all
   of them when its buffer was never full at a try. No publish tries it twice.
   */
  lemma OverlapSafety(moves: seq<Move>, c: nat) returns (idx: seq<nat>)
    requires After(moves).Some? && After(moves).value.panic.None? && c < |After(moves).value.hub.chans|
    ensures var s := After(moves).value;
      && Distinct(Tried(moves, c)) && (forall i :: 0 <= i < |Tried(moves, c)| ==> Tried(moves, c)[i] < |s.tasks|)
      && Embeds(Taken(moves, c) + s.hub.chans[c].buf, NodesOf(s.tasks, Tried(moves, c)), idx)
      && ((forall o :: o in OfferedTo(moves, c) ==> !o.full) ==>
            Taken(moves, c) + s.hub.chans[c].buf == NodesOf(s.tasks, Tried(moves, c)))
      && |s.hub.chans[c].buf| <= 64
  {
    var s, ops := After(moves).value, Seen(moves, c);
    EachChannelSeesARun(moves, c);
    TriesAre(moves, c);
    DeliveryInOrder(ops, c);
    RunInv(ops);
    idx := AcceptedEmbeds(Offers(ops, c));
    assert OfferedNodes(Offers(ops, c)) == NodesOf(s.tasks, Tried(moves, c));
    if forall o :: o in Offers(ops, c) ==> !o.full { AcceptedAll(Offers(ops, c)); }
  }

  // ----- a finished publish reached exactly the subscribers of its beginning -----

  /** Publish k keeps what it found when it began. */
  lemma {:induction false} FoundIsKept(moves: seq<Move>, i: nat)
    requires After(moves).Some? && i < |moves| && moves[i].Begin?
    ensures After(moves[..i]).Some?
    ensures var s, b := After(moves).value, After(moves[..i]).value;
      && |b.tasks| < |s.tasks|
      && s.tasks[|b.tasks|].targets == Subs(b.hub, moves[i].sid) && s.tasks[|b.tasks|].node == moves[i].node
    decreases |moves|
  {
    var m := |moves| - 1;
    PanicIsLast(moves);
    if i < m {
      assert moves[..m][..i] == moves[..i];
      FoundIsKept(moves[..m], i);
    }
  }

  lemma {:induction false} AfterPrefix(moves: seq<Move>, i: nat)
    requires After(moves).Some? && i <= |moves|
    ensures After(moves[..i]).Some? && (i < |moves| ==> After(moves[..i]).value.panic.None?)
    decreases |moves|
  {
    if i < |moves| {
      PanicIsLast(moves);
      assert moves[..|moves| - 1][..i] == moves[..i];
      AfterPrefix(moves[..|moves| - 1], i);
    } else {
      assert moves[..i] == moves;
    }
  }

  /**
   A finished publish tried exactly the channels of its session that were open when it began, each once,
   whatever else was published meanwhile.
   */
  lemma FinishedReachesAll(moves: seq<Move>, i: nat, c: nat)
    requires After(moves).Some? && After(moves).value.panic.None? && i < |moves| && moves[i].Begin?
    ensures After(moves[..i]).Some?
    ensures var s, b := After(moves).value, After(moves[..i]).value;
      var k := |b.tasks|;
      && k < |s.tasks| && s.tasks[k].node == moves[i].node && Distinct(Tried(moves, c))
      && (s.tasks[k].done ==>
            (k in Tried(moves, c) <==>
              c < |b.hub.chans| && b.hub.chans[c].session == moves[i].sid && !b.hub.chans[c].closed))
  {
    hide Enabled, Next;
    FoundIsKept(moves, i);
    AfterPrefix(moves, i);
    var s, b := After(moves).value, After(moves[..i]).value;
    var k := |b.tasks|;
    TriesAre(moves, c);
    assert TaskSound(s, k);
    EachChannelSeesARun(moves[..i], c);
    RunInv(Seen(moves[..i], c));
    assert Subscribed(Run(Seen(moves[..i], c)).value, moves[i].sid, c) <==> c in Subs(b.hub, moves[i].sid);
    assert s.tasks[k].targets[..|s.tasks[k].targets|] == s.tasks[k].targets;
  }

  // ----- the order of two publishes -----

  /** On this channel publish a came before publish b, if both came. */
  ghost predicate ComesFirst(tried: seq<nat>, a: nat, b: nat) {
    forall x, y :: 0 <= x < |tried| && 0 <= y < |tried| && tried[x] == a && tried[y] == b ==> x < y
  }

  lemma DoneStays(s: Shared, m: Move, a: nat)
    requires Enabled(s, m) && a < |s.tasks| && s.tasks[a].done
    ensures a < |Next(s, m).tasks| && Next(s, m).tasks[a].done && !(m.Try? && m.k == a)
  {
  }

  /** Publishes that do not overlap come in the same order everywhere: a finished one before all that begin later. */
  lemma {:induction false} FinishedComesFirst(moves: seq<Move>, i: nat, a: nat, c: nat)
    requires After(moves).Some? && After(moves).value.panic.None? && i <= |moves|
    requires After(moves[..i]).Some? && a < |After(moves[..i]).value.tasks| && After(moves[..i]).value.tasks[a].done
    ensures a < |After(moves).value.tasks| && After(moves).value.tasks[a].done
    ensures forall b: nat :: b >= |After(moves[..i]).value.tasks| ==> ComesFirst(Tried(moves, c), a, b)
    decreases |moves|
  {
    hide Enabled, Next;
    if i == |moves| {
      assert moves[..i] == moves;
      TriesAre(moves, c);
    } else {
      var before, m := moves[..|moves| - 1], moves[|moves| - 1];
      PanicIsLast(moves);
      assert before[..i] == moves[..i];
      FinishedComesFirst(before, i, a, c);
      var s := After(before).value;
      DoneStays(s, m, a);
      forall b: nat | b >= |After(moves[..i]).value.tasks| ensures ComesFirst(Tried(moves, c), a, b) {
        assert ComesFirst(Tried(before, c), a, b);
        if Trying(s, m, c) { ComesFirstStill(Tried(before, c), m.k, a, b); }
      }
    }
  }

  lemma ComesFirstStill(tried: seq<nat>, k: nat, a: nat, b: nat)
    requires ComesFirst(tried, a, b) && k != a
    ensures ComesFirst(tried + [k], a, b)
  {
  }

  lemma OneMore(moves: seq<Move>, s: Shared, m: Move, c: nat)
    requires After(moves) == Some(s) && Enabled(s, m)
    ensures After(moves + [m]) == Some(Next(s, m)) && Tried(moves + [m], c) == Tried(moves, c) + TriedBy(s, m, c)
  {
    var all := moves + [m];
    assert all[..|all| - 1] == moves && all[|all| - 1] == m;
  }

  lemma SubscribersOpen(moves: seq<Move>, s: Shared, sid: ID, c: nat)
    requires After(moves) == Some(s) && s.panic.None? && c in Subs(s.hub, sid)
    ensures c < |s.hub.chans| && !s.hub.chans[c].closed && Distinct(Subs(s.hub, sid))
  {
    EachChannelSeesARun(moves, c);
    RunInv(Seen(moves, c));
    assert Subscribed(Run(Seen(moves, c)).value, sid, c);
  }

  /** Two overlapping publishes; the second overtakes the first between the first two subscribers. */
  function Overtaking(s: Shared, sid: ID, m: Node, n: Node): seq<Move> {
    var k := |s.tasks|;
    [Begin(sid, m), Begin(sid, n), Try(k), Try(k + 1), Try(k + 1), Try(k)]
  }

  /** Publishes that overlap may come in different orders: after any run, wherever a session has two subscribers. */
  lemma OverlapsMayDiffer(moves: seq<Move>, s: Shared, sid: ID, m: Node, n: Node)
    requires After(moves) == Some(s) && s.panic.None? && |Subs(s.hub, sid)| >= 2
    ensures var all, c, d, k := moves + Overtaking(s, sid, m, n), Subs(s.hub, sid)[0], Subs(s.hub, sid)[1], |s.tasks|;
      && After(all).Some? && After(all).value.panic.None?
      && Tried(all, c) == Tried(moves, c) + [k, k + 1] && Tried(all, d) == Tried(moves, d) + [k + 1, k]
  {
    hide After, Tried, Enabled, Next, TriedBy;
    var c, d, k, ms := Subs(s.hub, sid)[0], Subs(s.hub, sid)[1], |s.tasks|, Overtaking(s, sid, m, n);
    SubscribersOpen(moves, s, sid, c);
    SubscribersOpen(moves, s, sid, d);
    var states := Overtaken(s, sid, m, n);
    SixMore(moves, states, ms, c);
    SixMore(moves, states, ms, d);
    TwoTries(Tried(moves, c), k);
    TwoTries(Tried(moves, d), k);
  }

  lemma TwoTries(tried: seq<nat>, k: nat)
    ensures tried + [] + [] + [k] + [k + 1] + [] + [] == tried + [k, k + 1]
    ensures tried + [] + [] + [] + [] + [k + 1] + [k] == tried + [k + 1, k]
  {
  }

  /** The states of the six moves, and whom each of them tries. */
  lemma Overtaken(s: Shared, sid: ID, m: Node, n: Node) returns (states: seq<Shared>)
    requires s.panic.None? && |Subs(s.hub, sid)| >= 2 && Subs(s.hub, sid)[0] != Subs(s.hub, sid)[1]
    requires forall i :: 0 <= i < 2 ==> Subs(s.hub, sid)[i] < |s.hub.chans| && !s.hub.chans[Subs(s.hub, sid)[i]].closed
    ensures var ms, c, d, k := Overtaking(s, sid, m, n), Subs(s.hub, sid)[0], Subs(s.hub, sid)[1], |s.tasks|;
      && |states| == 7 && states[0] == s && states[6].panic.None?
      && (forall i :: 0 <= i < 6 ==> Enabled(states[i], ms[i]) && states[i + 1] == Next(states[i], ms[i]))
      && forall x ::
        && TriedBy(states[0], ms[0], x) == [] && TriedBy(states[1], ms[1], x) == []
        && TriedBy(states[2], ms[2], x) == (if x == c then [k] else [])
           && TriedBy(states[3], ms[3], x) == (if x == c then [k + 1] else [])
        && TriedBy(states[4], ms[4], x) == (if x == d then [k + 1] else [])
           && TriedBy(states[5], ms[5], x) == (if x == d then [k] else [])
  {
    var ms := Overtaking(s, sid, m, n);
    var s1 := Next(s, ms[0]);
    var s2 := Next(s1, ms[1]);
    var s3 := Next(s2, ms[2]);
    var s4 := Next(s3, ms[3]);
    var s5 := Next(s4, ms[4]);
    states := [s, s1, s2, s3, s4, s5, Next(s5, ms[5])];
  }

  lemma SixMore(moves: seq<Move>, states: seq<Shared>, ms: seq<Move>, c: nat)
    requires |ms| == 6 && |states| == 7 && After(moves) == Some(states[0])
    requires forall i :: 0 <= i < 6 ==> Enabled(states[i], ms[i]) && states[i + 1] == Next(states[i], ms[i])
    ensures After(moves + ms) == Some(states[6])
    ensures Tried(moves + ms, c) == Tried(moves, c)
      + TriedBy(states[0], ms[0], c) + TriedBy(states[1], ms[1], c) + TriedBy(states[2], ms[2], c)
      + TriedBy(states[3], ms[3], c) + TriedBy(states[4], ms[4], c) + TriedBy(states[5], ms[5], c)
  {
    hide After, Tried, Enabled, Next, TriedBy;
    var run := moves;
    for i := 0 to 6
      invariant run == moves + ms[..i] && After(run) == Some(states[i])
      invariant Tried(run, c) == Tried(moves, c)
        + (if i > 0 then TriedBy(states[0], ms[0], c) else []) + (if i > 1 then TriedBy(states[1], ms[1], c) else [])
        + (if i > 2 then TriedBy(states[2], ms[2], c) else []) + (if i > 3 then TriedBy(states[3], ms[3], c) else [])
        + (if i > 4 then TriedBy(states[4], ms[4], c) else []) + (if i > 5 then TriedBy(states[5], ms[5], c) else [])
    {
      OneMore(run, states[i], ms[i], c);
      run := run + [ms[i]];
    }
    assert ms[..6] == ms;
  }

  lemma StepOfPublish(moves: seq<Move>, s: Shared, k: nat) returns (m: Move)
    requires After(moves) == Some(s) && s.panic.None? && Running(s, k)
    ensures m == (if s.tasks[k].next == |s.tasks[k].targets| then Finish(k) else Try(k)) && Enabled(s, m)
    ensures s.tasks[k].next <= |s.tasks[k].targets| && After(moves + [m]) == Some(Next(s, m))
    ensures Next(s, m).panic.None? && k < |Next(s, m).tasks| && Next(s, m).tasks[k].targets == s.tasks[k].targets
    ensures if m == Finish(k) then Next(s, m).tasks[k].done
            else Running(Next(s, m), k) && Next(s, m).tasks[k].next == s.tasks[k].next + 1
  {
    hide After, Run, Received, Offers, PubSub.Step, Idle;
    EachChannelSeesARun(moves, 0);
    var t := s.tasks[k];
    assert TaskSound(s, k);
    m := if t.next == |t.targets| then Finish(k) else Try(k);
    if m == Try(k) { SubscribersOpen(moves, s, t.sid, t.targets[t.next]); }
    OneMore(moves, s, m, 0);
  }

  /** At any point, a publish that has begun can finish on its own, without a reader or another publish. */
  lemma {:induction false} CanFinish(moves: seq<Move>, k: nat) returns (more: seq<Move>)
    requires After(moves).Some? && After(moves).value.panic.None? && Running(After(moves).value, k)
    ensures After(moves + more).Some? && After(moves + more).value.panic.None?
    ensures k < |After(moves + more).value.tasks| && After(moves + more).value.tasks[k].done
    ensures forall m :: m in more ==> m in {Try(k), Finish(k)}
    decreases |After(moves).value.tasks[k].targets| - After(moves).value.tasks[k].next
  {
    hide After, Next, Enabled;
    var s := After(moves).value;
    var m := StepOfPublish(moves, s, k);
    if m == Try(k) {
      more := CanFinish(moves + [m], k);
      assert (moves + [m]) + more == moves + ([m] + more);
      more := [m] + more;
    } else {
      more := [m];
    }
  }
}
