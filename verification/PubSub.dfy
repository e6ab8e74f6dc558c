/**
 The in-process publish/subscribe hub as a value: who is subscribed to which session, and every
 channel ever made. Each locked operation and each channel receive is one atomic step.
 */
module PubSub {
  import opened Types
  import opened Sequences

  /** Capacity of a subscriber's channel. */
  const BUFFER: nat := 64

  /** A buffered channel; `session` is what its cancel function remembers. */
  datatype Chan = Chan(session: ID, buf: seq<Node>, closed: bool)

  /** Channels are named by the order in which they were made. */
  datatype Hub = Hub(subs: map<ID, seq<nat>>, chans: seq<Chan>)

  const EMPTY := Hub(map[], [])

  datatype Panic = SendOnClosed | CloseOfClosed

  /** Elsewhere is a step of the surrounding system that does not touch the hub. */
  datatype Op = Watch(sid: ID) | Publish(sid: ID, node: Node) | Cancel(c: nat) | Receive(c: nat) | Elsewhere

  function Subs(h: Hub, sid: ID): seq<nat> {
    if sid in h.subs then h.subs[sid] else []
  }

  ghost predicate Below(s: seq<nat>, n: nat) {
    forall i :: 0 <= i < |s| ==> s[i] < n
  }

  /** Subscriptions name channels that exist. */
  ghost predicate Bounded(h: Hub) {
    forall s :: Below(Subs(h, s), |h.chans|)
  }

  /** A send that gives up when the buffer is full. */
  function TrySend(ch: Chan, node: Node): Chan {
    if |ch.buf| < BUFFER then ch.(buf := ch.buf + [node]) else ch
  }

  function SendEach(chans: seq<Chan>, targets: seq<nat>, node: Node): (r: Result<seq<Chan>, Panic>)
    requires Below(targets, |chans|)
    ensures r.Ok? ==> |r.value| == |chans|
  {
    if targets == [] then Ok(chans)
    else
      var last := targets[|targets| - 1];
      match SendEach(chans, targets[..|targets| - 1], node)
      case Err(p) => Err(p)
      case Ok(cs) => if cs[last].closed then Err(SendOnClosed) else Ok(cs[last := TrySend(cs[last], node)])
  }

  /** s without the first occurrence of c. */
  function Without(s: seq<nat>, c: nat): (r: seq<nat>)
    ensures forall n: nat :: Below(s, n) ==> Below(r, n)
  {
    if s == [] then []
    else if s[0] == c then s[1..]
    else
      assert forall n: nat :: Below(s, n) ==> Below(s[1..], n);
      var rest := Without(s[1..], c);
      assert forall n: nat, i :: 0 <= i < |rest| && Below(s, n) ==> Below(rest, n) && rest[i] < n;
      [s[0]] + rest
  }

  function AfterWatch(h: Hub, sid: ID): Hub {
    Hub(h.subs[sid := Subs(h, sid) + [|h.chans|]], h.chans + [Chan(sid, [], false)])
  }

  function AfterCancel(h: Hub, c: nat): Hub
    requires c < |h.chans|
  {
    var sid := h.chans[c].session;
    Hub(if sid in h.subs then h.subs[sid := Without(h.subs[sid], c)] else h.subs,
        h.chans[c := h.chans[c].(closed := true)])
  }

  function AfterReceive(h: Hub, c: nat): Hub
    requires c < |h.chans| && h.chans[c].buf != []
  {
    h.(chans := h.chans[c := h.chans[c].(buf := h.chans[c].buf[1..])])
  }

  /** A cancel or receive can only come from the holder of an existing channel. */
  function Step(h: Hub, op: Op): Result<Hub, Panic>
    requires Bounded(h)
  {
    match op
    case Watch(sid) => Ok(AfterWatch(h, sid))
    case Publish(sid, node) =>
      (match SendEach(h.chans, Subs(h, sid), node)
       case Err(p) => Err(p)
       case Ok(cs) => Ok(h.(chans := cs)))
    case Cancel(c) =>
      if c >= |h.chans| then Ok(h)
      else if h.chans[c].closed then Err(CloseOfClosed)
      else Ok(AfterCancel(h, c))
    case Receive(c) => if c >= |h.chans| || h.chans[c].buf == [] then Ok(h) else Ok(AfterReceive(h, c))
    case Elsewhere => Ok(h)
  }

  lemma StepBounded(h: Hub, op: Op)
    requires Bounded(h) && Step(h, op).Ok?
    ensures Bounded(Step(h, op).value)
  {
    var h' := Step(h, op).value;
    forall s ensures Below(Subs(h', s), |h'.chans|) {
      assert Below(Subs(h, s), |h.chans|);
    }
  }

  /** The hub after a run of atomic steps; a panic ends the process. */
  function Run(ops: seq<Op>): (r: Result<Hub, Panic>)
    ensures r.Ok? ==> Bounded(r.value)
  {
    if ops == [] then Ok(EMPTY)
    else
      match Run(ops[..|ops| - 1])
      case Err(p) => Err(p)
      case Ok(h) =>
        var op := ops[|ops| - 1];
        var r := Step(h, op);
        if r.Err? then r else StepBounded(h, op); r
  }

  lemma {:induction false} WithoutMembers(s: seq<nat>, c: nat)
    requires Distinct(s)
    ensures Distinct(Without(s, c)) && forall t: nat :: t in Without(s, c) <==> t in s && t != c
  {
    if s != [] {
      assert s == [s[0]] + s[1..];
      assert s[0] !in s[1..];
      WithoutMembers(s[1..], c);
    }
  }

  // ----- the invariant -----

  ghost predicate Subscribed(h: Hub, s: ID, t: nat) {
    t in Subs(h, s)
  }

  /** A channel is subscribed, once and to its own session, exactly while it is open. */
  ghost predicate Inv(h: Hub) {
    && (forall s, t: nat {:trigger Subscribed(h, s, t)} ::
          Subscribed(h, s, t) <==> t < |h.chans| && h.chans[t].session == s && !h.chans[t].closed)
    && (forall s :: Distinct(Subs(h, s)))
    && forall t :: 0 <= t < |h.chans| ==> |h.chans[t].buf| <= BUFFER
  }

  /** Every subscriber gets one try, nobody else is touched. */
  lemma {:induction false} SendEachOnce(chans: seq<Chan>, targets: seq<nat>, node: Node)
    requires Distinct(targets) && Below(targets, |chans|)
      && forall i :: 0 <= i < |targets| ==> !chans[targets[i]].closed
    ensures var r := SendEach(chans, targets, node);
      r.Ok? && forall t :: 0 <= t < |chans| ==> r.value[t] == if t in targets then TrySend(chans[t], node) else chans[t]
  {
    if targets != [] {
      var before, last := targets[..|targets| - 1], targets[|targets| - 1];
      assert targets == before + [last];
      SendEachOnce(chans, before, node);
    }
  }

  ghost predicate AnyClosed(chans: seq<Chan>, targets: seq<nat>)
    requires Below(targets, |chans|)
  {
    exists i :: 0 <= i < |targets| && chans[targets[i]].closed
  }

  /** A publish panics exactly if one of its targets is closed; it never changes whose channel it is, nor closes one. */
  lemma {:induction false} SendEachPanics(chans: seq<Chan>, targets: seq<nat>, node: Node)
    requires Below(targets, |chans|)
    ensures SendEach(chans, targets, node).Err? <==> AnyClosed(chans, targets)
    ensures SendEach(chans, targets, node).Ok? ==> forall c :: 0 <= c < |chans| ==>
      && SendEach(chans, targets, node).value[c].session == chans[c].session
      && SendEach(chans, targets, node).value[c].closed == chans[c].closed
  {
    if targets != [] {
      SendEachPanics(chans, targets[..|targets| - 1], node);
      assert forall i :: 0 <= i < |targets| - 1 ==> targets[..|targets| - 1][i] == targets[i];
    }
  }

  function AfterPublish(ch: Chan, sid: ID, node: Node): Chan {
    if ch.session == sid && !ch.closed then TrySend(ch, node) else ch
  }

  lemma PublishReaches(h: Hub, sid: ID, node: Node)
    requires Inv(h) && Bounded(h)
    ensures var r := Step(h, Publish(sid, node));
      r.Ok? && r.value.subs == h.subs && |r.value.chans| == |h.chans|
      && forall t :: 0 <= t < |h.chans| ==> r.value.chans[t] == AfterPublish(h.chans[t], sid, node)
  {
    assert forall i :: 0 <= i < |Subs(h, sid)| ==> Subscribed(h, sid, Subs(h, sid)[i]);
    SendEachOnce(h.chans, Subs(h, sid), node);
    forall t: nat | t < |h.chans| ensures t in Subs(h, sid) <==> h.chans[t].session == sid && !h.chans[t].closed {
      assert Subscribed(h, sid, t) <==> t in Subs(h, sid);
    }
  }

  lemma WatchKeepsInv(h: Hub, sid: ID)
    requires Inv(h) && Bounded(h)
    ensures Inv(AfterWatch(h, sid))
  {
    var h' := AfterWatch(h, sid);
    forall s, t: nat
      ensures Subscribed(h', s, t) <==> t < |h'.chans| && h'.chans[t].session == s && !h'.chans[t].closed
    {
      assert Subscribed(h, s, t) <==> t in Subs(h, s);
    }
    assert !Subscribed(h, sid, |h.chans|);
    forall s ensures Distinct(Subs(h', s)) { assert Distinct(Subs(h, s)); }
  }

  lemma CancelKeepsInv(h: Hub, c: nat)
    requires Inv(h) && Bounded(h) && c < |h.chans|
    ensures Inv(AfterCancel(h, c))
  {
    var h' := AfterCancel(h, c);
    forall s ensures Distinct(Subs(h', s)) {
      assert Distinct(Subs(h, s));
      WithoutMembers(Subs(h, s), c);
    }
    WithoutMembers(Subs(h, h.chans[c].session), c);
    forall s, t: nat
      ensures Subscribed(h', s, t) <==> t < |h'.chans| && h'.chans[t].session == s && !h'.chans[t].closed
    {
      assert Subscribed(h, s, t) <==> t in Subs(h, s);
    }
  }

  lemma PublishKeepsInv(h: Hub, sid: ID, node: Node)
    requires Inv(h) && Bounded(h)
    ensures Step(h, Publish(sid, node)).Ok? && Inv(Step(h, Publish(sid, node)).value)
  {
    PublishReaches(h, sid, node);
    var h' := Step(h, Publish(sid, node)).value;
    forall s, t: nat
      ensures Subscribed(h', s, t) <==> t < |h'.chans| && h'.chans[t].session == s && !h'.chans[t].closed
    {
      assert Subscribed(h, s, t) <==> t in Subs(h, s);
    }
    forall s ensures Distinct(Subs(h', s)) { assert Distinct(Subs(h, s)); }
  }

  lemma ReceiveKeepsInv(h: Hub, c: nat)
    requires Inv(h) && Bounded(h) && c < |h.chans| && h.chans[c].buf != []
    ensures Inv(AfterReceive(h, c))
  {
    var h' := AfterReceive(h, c);
    forall s, t: nat
      ensures Subscribed(h', s, t) <==> t < |h'.chans| && h'.chans[t].session == s && !h'.chans[t].closed
    {
      assert Subscribed(h, s, t) <==> t in Subs(h, s);
    }
    forall s ensures Distinct(Subs(h', s)) { assert Distinct(Subs(h, s)); }
  }

  /** A step of a sound hub panics only on a second cancel, and otherwise leaves it sound. */
  lemma StepKeepsInv(h: Hub, op: Op)
    requires Inv(h) && Bounded(h)
    ensures Step(h, op).Err? <==> op.Cancel? && op.c < |h.chans| && h.chans[op.c].closed
    ensures Step(h, op).Ok? ==> Inv(Step(h, op).value)
  {
    match op {
      case Watch(sid) => WatchKeepsInv(h, sid);
      case Publish(sid, node) => PublishKeepsInv(h, sid, node);
      case Cancel(c) => if c < |h.chans| { CancelKeepsInv(h, c); }
      case Receive(c) => if c < |h.chans| && h.chans[c].buf != [] { ReceiveKeepsInv(h, c); }
      case Elsewhere =>
    }
  }

  lemma {:induction false} RunInv(ops: seq<Op>)
    requires Run(ops).Ok?
    ensures Inv(Run(ops).value)
  {
    if ops != [] {
      RunInv(ops[..|ops| - 1]);
      StepKeepsInv(Run(ops[..|ops| - 1]).value, ops[|ops| - 1]);
    }
  }

  // ----- no panic -----

  /** How many channels the run has made. */
  function Made(ops: seq<Op>): nat {
    if ops == [] then 0 else Made(ops[..|ops| - 1]) + if ops[|ops| - 1].Watch? then 1 else 0
  }

  /** Step i calls the cancel function of channel c, which exists by then. */
  ghost predicate CancelsAt(ops: seq<Op>, i: nat, c: nat) {
    i < |ops| && ops[i] == Cancel(c) && c < Made(ops[..i])
  }

  ghost predicate Cancelled(ops: seq<Op>, c: nat) {
    exists i: nat :: CancelsAt(ops, i, c)
  }

  lemma CancelledLonger(ops: seq<Op>, c: nat)
    requires ops != []
    ensures var m := |ops| - 1; Cancelled(ops, c) <==> Cancelled(ops[..m], c) || CancelsAt(ops, m, c)
  {
    var m := |ops| - 1;
    forall i: nat | i < m ensures CancelsAt(ops, i, c) <==> CancelsAt(ops[..m], i, c) {
      assert ops[..m][..i] == ops[..i];
    }
  }

  lemma {:induction false} ClosedIffCancelled(ops: seq<Op>)
    requires Run(ops).Ok?
    ensures |Run(ops).value.chans| == Made(ops)
    ensures forall c: nat :: c < Made(ops) ==> (Run(ops).value.chans[c].closed <==> Cancelled(ops, c))
  {
    if ops != [] {
      var before, op := ops[..|ops| - 1], ops[|ops| - 1];
      ClosedIffCancelled(before);
      RunInv(before);
      var h := Run(before).value;
      StepKeepsInv(h, op);
      if op.Publish? { PublishReaches(h, op.sid, op.node); }
      forall c: nat | c < Made(ops) ensures Run(ops).value.chans[c].closed <==> Cancelled(ops, c) {
        CancelledLonger(ops, c);
        if c == Made(before) { FreshUncancelled(before, c); }
      }
    }
  }

  /** A channel not yet made has not been cancelled. */
  lemma FreshUncancelled(ops: seq<Op>, c: nat)
    requires c >= Made(ops)
    ensures !Cancelled(ops, c)
  {
    forall i: nat | i < |ops| ensures !CancelsAt(ops, i, c) { MadeGrows(ops, i); }
  }

  lemma {:induction false} MadeGrows(ops: seq<Op>, i: nat)
    requires i <= |ops|
    ensures Made(ops[..i]) <= Made(ops)
    decreases |ops|
  {
    if i < |ops| {
      assert ops[..|ops| - 1][..i] == ops[..i];
      MadeGrows(ops[..|ops| - 1], i);
    } else {
      assert ops[..i] == ops;
    }
  }

  ghost predicate CancelledTwice(ops: seq<Op>) {
    exists i: nat, j: nat, c: nat :: i < j && CancelsAt(ops, i, c) && CancelsAt(ops, j, c)
  }

  lemma CancelledTwiceLonger(ops: seq<Op>)
    requires ops != []
    ensures var m := |ops| - 1;
      CancelledTwice(ops) <==>
        CancelledTwice(ops[..m]) || exists c: nat :: CancelsAt(ops, m, c) && Cancelled(ops[..m], c)
  {
    var m := |ops| - 1;
    forall i: nat, c: nat | i < m ensures CancelsAt(ops, i, c) <==> CancelsAt(ops[..m], i, c) {
      assert ops[..m][..i] == ops[..i];
    }
    if CancelledTwice(ops) {
      var i: nat, j: nat, c: nat :| i < j && CancelsAt(ops, i, c) && CancelsAt(ops, j, c);
      assert CancelsAt(ops[..m], i, c);
      if j < m { assert CancelsAt(ops[..m], j, c); }
    }
    if CancelledTwice(ops[..m]) {
      var i: nat, j: nat, c: nat :| i < j && CancelsAt(ops[..m], i, c) && CancelsAt(ops[..m], j, c);
      assert CancelsAt(ops, i, c) && CancelsAt(ops, j, c);
    }
    if c: nat :| CancelsAt(ops, m, c) && Cancelled(ops[..m], c) {
      var i: nat :| CancelsAt(ops[..m], i, c);
      assert CancelsAt(ops, i, c);
    }
  }

  /** The only way to bring the process down is to call one cancel function twice; no publish ever does. */
  lemma {:induction false} PanicsIffCancelledTwice(ops: seq<Op>)
    ensures Run(ops).Err? <==> CancelledTwice(ops)
  {
    if ops != [] {
      var m := |ops| - 1;
      var before, op := ops[..m], ops[m];
      PanicsIffCancelledTwice(before);
      CancelledTwiceLonger(ops);
      if Run(before).Ok? {
        ClosedIffCancelled(before);
        RunInv(before);
        StepKeepsInv(Run(before).value, op);
        if op.Cancel? { assert CancelsAt(ops, m, op.c) <==> op.c < Made(before); }
      }
    }
  }

  // ----- what a subscriber gets -----

  /** A publish that found channel c open and subscribed; full says that it was dropped. */
  datatype Offer = Offer(node: Node, full: bool)

  ghost predicate Offered(h: Hub, op: Op, c: nat) {
    op.Publish? && c < |h.chans| && h.chans[c].session == op.sid && !h.chans[c].closed
  }

  /** What one step offers to channel c. */
  ghost function OfferOf(h: Hub, op: Op, c: nat): seq<Offer> {
    if Offered(h, op, c) then [Offer(op.node, |h.chans[c].buf| == 64)] else []
  }

  /** What one step takes from channel c. */
  ghost function TakenOf(h: Hub, op: Op, c: nat): seq<Node> {
    if op == Receive(c) && c < |h.chans| && h.chans[c].buf != [] then [h.chans[c].buf[0]] else []
  }

  ghost function Offers(ops: seq<Op>, c: nat): seq<Offer> {
    if ops == [] then []
    else
      var r := Run(ops[..|ops| - 1]);
      Offers(ops[..|ops| - 1], c) + if r.Ok? then OfferOf(r.value, ops[|ops| - 1], c) else []
  }

  /** What the subscriber has taken from channel c. */
  ghost function Received(ops: seq<Op>, c: nat): seq<Node> {
    if ops == [] then []
    else
      var r := Run(ops[..|ops| - 1]);
      Received(ops[..|ops| - 1], c) + if r.Ok? then TakenOf(r.value, ops[|ops| - 1], c) else []
  }

  function Accepted(offers: seq<Offer>): seq<Node> {
    if offers == [] then []
    else Accepted(offers[..|offers| - 1]) + if offers[|offers| - 1].full then [] else [offers[|offers| - 1].node]
  }

  function OfferedNodes(offers: seq<Offer>): seq<Node> {
    seq(|offers|, i requires 0 <= i < |offers| => offers[i].node)
  }

  lemma {:induction false} AcceptedConcat(a: seq<Offer>, b: seq<Offer>)
    ensures Accepted(a + b) == Accepted(a) + Accepted(b)
  {
    if b == [] {
      assert a + b == a;
    } else {
      assert (a + b)[..|a + b| - 1] == a + b[..|b| - 1];
      AcceptedConcat(a, b[..|b| - 1]);
    }
  }

  /** One step on one channel: it takes the front, adds at the back, or leaves it. */
  lemma DeliveryStep(h: Hub, op: Op, c: nat)
    requires Inv(h) && Bounded(h) && Step(h, op).Ok?
    ensures c < |h.chans| ==>
      c < |Step(h, op).value.chans|
      && TakenOf(h, op, c) + Step(h, op).value.chans[c].buf == h.chans[c].buf + Accepted(OfferOf(h, op, c))
    ensures |h.chans| <= c ==> TakenOf(h, op, c) == [] && OfferOf(h, op, c) == []
    ensures |h.chans| <= c < |Step(h, op).value.chans| ==> Step(h, op).value.chans[c].buf == []
  {
    if op.Publish? { PublishReaches(h, op.sid, op.node); }
    assert forall o: Offer :: [o][..0] == [];
  }

  lemma Reassociate<T>(a: seq<T>, b: seq<T>, c: seq<T>, d: seq<T>, e: seq<T>)
    requires b + c == d + e
    ensures (a + b) + c == (a + d) + e
  {
    assert (a + b) + c == a + (b + c);
  }

  ghost predicate Balanced(h: Hub, c: nat, received: seq<Node>, offers: seq<Offer>) {
    if c < |h.chans| then received + h.chans[c].buf == Accepted(offers) else received == [] && offers == []
  }

  lemma BalancedStep(h: Hub, op: Op, c: nat, received: seq<Node>, offers: seq<Offer>)
    requires Inv(h) && Bounded(h) && Step(h, op).Ok? && Balanced(h, c, received, offers)
    ensures Balanced(Step(h, op).value, c, received + TakenOf(h, op, c), offers + OfferOf(h, op, c))
  {
    DeliveryStep(h, op, c);
    AcceptedConcat(offers, OfferOf(h, op, c));
    if c < |h.chans| {
      var taken, now, buf := TakenOf(h, op, c), Step(h, op).value.chans[c].buf, h.chans[c].buf;
      Reassociate(received, taken, now, buf, Accepted(OfferOf(h, op, c)));
    }
  }

  /** Taken plus still buffered is exactly what was accepted, in order. */
  lemma {:induction false} DeliveryInOrder(ops: seq<Op>, c: nat)
    requires Run(ops).Ok?
    ensures Balanced(Run(ops).value, c, Received(ops, c), Offers(ops, c))
  {
    if ops != [] {
      var before := ops[..|ops| - 1];
      DeliveryInOrder(before, c);
      RunInv(before);
      BalancedStep(Run(before).value, ops[|ops| - 1], c, Received(before, c), Offers(before, c));
    }
  }

  /** idx embeds s into t, keeping the order. */
  ghost predicate Embeds<T>(s: seq<T>, t: seq<T>, idx: seq<nat>) {
    && |idx| == |s|
    && (forall i, j :: 0 <= i < j < |idx| ==> idx[i] < idx[j])
    && forall i :: 0 <= i < |idx| ==> idx[i] < |t| && s[i] == t[idx[i]]
  }

  lemma {:induction false} AcceptedEmbeds(offers: seq<Offer>) returns (idx: seq<nat>)
    ensures Embeds(Accepted(offers), OfferedNodes(offers), idx)
  {
    idx := [];
    if offers != [] {
      var m := |offers| - 1;
      idx := AcceptedEmbeds(offers[..m]);
      assert OfferedNodes(offers) == OfferedNodes(offers[..m]) + [offers[m].node];
      idx := EmbedLast(Accepted(offers[..m]), OfferedNodes(offers[..m]), idx, offers[m].node, !offers[m].full);
    }
  }

  lemma EmbedLast<T>(s: seq<T>, t: seq<T>, idx: seq<nat>, x: T, kept: bool) returns (idx': seq<nat>)
    requires Embeds(s, t, idx)
    ensures Embeds(s + if kept then [x] else [], t + [x], idx')
  {
    idx' := if kept then idx + [|t|] else idx;
  }

  lemma {:induction false} AcceptedAll(offers: seq<Offer>)
    requires forall o :: o in offers ==> !o.full
    ensures Accepted(offers) == OfferedNodes(offers)
  {
    if offers != [] {
      AcceptedAll(offers[..|offers| - 1]);
      assert OfferedNodes(offers) == OfferedNodes(offers[..|offers| - 1]) + [offers[|offers| - 1].node];
    } else {
      assert OfferedNodes(offers) == [];
    }
  }

  /** The publishes to sid in ops, up to the first cancel of c. */
  function PublishedUntilCancel(ops: seq<Op>, sid: ID, c: nat): seq<Node> {
    if ops == [] || ops[0] == Cancel(c) then []
    else (if ops[0].Publish? && ops[0].sid == sid then [ops[0].node] else []) + PublishedUntilCancel(ops[1..], sid, c)
  }

  lemma {:induction false} PublishedLonger(ops: seq<Op>, op: Op, sid: ID, c: nat)
    ensures PublishedUntilCancel(ops + [op], sid, c) ==
      PublishedUntilCancel(ops, sid, c)
      + if Cancel(c) !in ops && op.Publish? && op.sid == sid then [op.node] else []
  {
    if ops == [] {
      assert (ops + [op])[1..] == [];
    } else if ops[0] != Cancel(c) {
      assert (ops + [op])[1..] == ops[1..] + [op];
      assert ops == [ops[0]] + ops[1..];
      PublishedLonger(ops[1..], op, sid, c);
    }
  }

  /** Step i made channel c for session sid. */
  ghost predicate MadeAt(ops: seq<Op>, i: nat, c: nat, sid: ID) {
    i < |ops| && ops[i] == Watch(sid) && Made(ops[..i]) == c
  }

  lemma {:induction false} MadeChannel(ops: seq<Op>, i: nat, c: nat, sid: ID)
    requires Run(ops).Ok? && MadeAt(ops, i, c, sid)
    ensures |Run(ops).value.chans| == Made(ops) && c < Made(ops)
    ensures Run(ops).value.chans[c].session == sid
    ensures Cancelled(ops, c) <==> Cancel(c) in ops[i + 1..]
    decreases |ops|
  {
    var m := |ops| - 1;
    var before, op := ops[..m], ops[m];
    ClosedIffCancelled(ops);
    ClosedIffCancelled(before);
    CancelledLonger(ops, c);
    if i < m {
      assert before[..i] == ops[..i];
      MadeChannel(before, i, c, sid);
      RunInv(before);
      if op.Publish? { PublishReaches(Run(before).value, op.sid, op.node); }
      assert ops[i + 1..] == before[i + 1..] + [op];
    } else {
      FreshUncancelled(before, c);
    }
  }

  lemma OfferedIff(ops: seq<Op>, i: nat, c: nat, sid: ID, op: Op)
    requires Run(ops).Ok? && MadeAt(ops, i, c, sid)
    ensures Offered(Run(ops).value, op, c) <==> Cancel(c) !in ops[i + 1..] && op.Publish? && op.sid == sid
  {
    MadeChannel(ops, i, c, sid);
    ClosedIffCancelled(ops);
  }

  lemma NoOffersWhenMade(ops: seq<Op>, c: nat, sid: ID)
    requires Run(ops).Ok? && Made(ops) == c
    ensures OfferedNodes(Offers(ops, c) + OfferOf(Run(ops).value, Watch(sid), c)) == []
  {
    DeliveryInOrder(ops, c);
    ClosedIffCancelled(ops);
  }

  /** A subscriber is offered every publish to its session from its subscription to its cancellation, and no other. */
  lemma {:induction false} OffersAreThePublishes(ops: seq<Op>, i: nat, c: nat, sid: ID)
    requires Run(ops).Ok? && MadeAt(ops, i, c, sid)
    ensures OfferedNodes(Offers(ops, c)) == PublishedUntilCancel(ops[i + 1..], sid, c)
    decreases |ops|
  {
    var m := |ops| - 1;
    var before, op := ops[..m], ops[m];
    if i < m {
      DropLast(ops, i);
      DropLast(ops, i + 1);
      OffersAreThePublishes(before, i, c, sid);
      OfferedIff(before, i, c, sid, op);
      PublishedLonger(before[i + 1..], op, sid, c);
      OfferedNodesStep(Offers(before, c), Run(before).value, op, c);
    } else {
      NoOffersWhenMade(before, c, sid);
      assert ops[i + 1..] == [];
    }
  }

  lemma OfferedNodesStep(offers: seq<Offer>, h: Hub, op: Op, c: nat)
    ensures OfferedNodes(offers + OfferOf(h, op, c))
            == OfferedNodes(offers) + if Offered(h, op, c) then [op.node] else []
  {
  }

  /**
   Safety of one subscription, over every run: what it took, followed by what is still buffered, is an
   in-order subsequence of its session's publishes since it subscribed; and it is all of them when its
   buffer was never full at a publish.
   */
  lemma SubscriptionSafety(ops: seq<Op>, i: nat, c: nat, sid: ID) returns (idx: seq<nat>)
    requires Run(ops).Ok? && MadeAt(ops, i, c, sid)
    ensures c < |Run(ops).value.chans|
    ensures var got := Received(ops, c) + Run(ops).value.chans[c].buf;
      var published := PublishedUntilCancel(ops[i + 1..], sid, c);
      && Embeds(got, published, idx)
      && ((forall o :: o in Offers(ops, c) ==> !o.full) ==> got == published)
    ensures |Run(ops).value.chans[c].buf| <= 64
  {
    MadeChannel(ops, i, c, sid);
    DeliveryInOrder(ops, c);
    OffersAreThePublishes(ops, i, c, sid);
    RunInv(ops);
    idx := AcceptedEmbeds(Offers(ops, c));
    if forall o :: o in Offers(ops, c) ==> !o.full {
      AcceptedAll(Offers(ops, c));
    }
  }
}
