/** The watcher mixin of the Cayley store: subscriptions and channels changed in place under a lock. */
module CayleyWatch {
  import opened Types
  import opened PubSub

  class Watcher {
    var subs: map<ID, seq<nat>>
    /** The channels made so far; a channel is its index here. */
    var chans: seq<Chan>

    ghost function Value(): Hub
      reads this
    {
      Hub(subs, chans)
    }

    constructor ()
      ensures Value() == EMPTY
    {
      subs, chans := map[], [];
    }

    method Watch(sid: ID) returns (c: nat)
      requires Bounded(Value())
      modifies this
      ensures PubSub.Step(old(Value()), PubSub.Watch(sid)) == Ok(Value())
      ensures c == |old(chans)| && chans == old(chans) + [Chan(sid, [], false)]
      ensures sid in subs && subs[sid] == (if sid in old(subs) then old(subs)[sid] else []) + [c]
      ensures forall s :: s != sid ==> (s in subs <==> s in old(subs)) && (s in subs ==> subs[s] == old(subs)[s])
    {
      c := |chans|;
      chans := chans + [Chan(sid, [], false)];
      subs := subs[sid := (if sid in subs then subs[sid] else []) + [c]];
    }

    /** Slow subscribers are skipped, never waited for. */
    method Publish(sid: ID, node: Node) returns (panic: Option<Panic>)
      requires Bounded(Value())
      modifies this`chans
      ensures match PubSub.Step(old(Value()), PubSub.Publish(sid, node))
        case Ok(h) => panic == None && Value() == h
        case Err(p) => panic == Some(p)
      ensures panic.Some? <==> AnyClosed(old(chans), Subs(old(Value()), sid))
    {
      hide SendEach, AnyClosed;
      var targets := if sid in subs then subs[sid] else [];
      assert targets == Subs(Value(), sid);
      ghost var before := chans;
      SendEachPanics(chans, targets, node);
      SendToNone(chans, node);
      assert targets[..0] == [];
      for i := 0 to |targets|
        invariant |chans| == |before|
        invariant SendEach(before, targets[..i], node) == Ok(chans)
      {
        assert targets[..i + 1] == targets[..i] + [targets[i]];
        SendEachLonger(before, targets[..i], targets[i], node);
        var ch := chans[targets[i]];
        if ch.closed {
          SendErrorStays(before, targets, i + 1, node);
          return Some(SendOnClosed);
        }
        if |ch.buf| < BUFFER {
          chans := chans[targets[i] := ch.(buf := ch.buf + [node])];
        } else {
          assert chans[targets[i] := ch] == chans;
        }
      }
      assert targets[..|targets|] == targets;
      panic := None;
    }

    /** The cancel function returned by Watch. */
    method Cancel(c: nat) returns (panic: Option<Panic>)
      requires Bounded(Value()) && c < |chans|
      modifies this
      ensures match PubSub.Step(old(Value()), PubSub.Cancel(c))
        case Ok(h) => panic == None && Value() == h
        case Err(p) => panic == Some(p)
    {
      hide Without, Bounded;
      var sid := chans[c].session;
      if sid in subs {
        var list := subs[sid];
        var i := 0;
        while i < |list| && list[i] != c
          invariant i <= |list| && forall k :: 0 <= k < i ==> list[k] != c
        {
          i := i + 1;
        }
        WithoutFirst(list, c, i);
        if i < |list| {
          subs := subs[sid := list[..i] + list[i + 1..]];
        } else {
          assert subs == subs[sid := list];
        }
      }
      if chans[c].closed { return Some(CloseOfClosed); }
      chans := chans[c := chans[c].(closed := true)];
      panic := None;
    }

    /** A receive that finds something buffered. */
    method Receive(c: nat) returns (node: Node)
      requires Bounded(Value()) && c < |chans| && chans[c].buf != []
      modifies this`chans
      ensures PubSub.Step(old(Value()), PubSub.Receive(c)) == Ok(Value())
      ensures node == old(chans)[c].buf[0]
    {
      node := chans[c].buf[0];
      chans := chans[c := chans[c].(buf := chans[c].buf[1..])];
    }
  }

  /** i is the first place of c in the list, or its end. */
  lemma {:induction false} WithoutFirst(list: seq<nat>, c: nat, i: nat)
    requires i <= |list| && (i < |list| ==> list[i] == c) && forall k :: 0 <= k < i ==> list[k] != c
    ensures Without(list, c) == if i < |list| then list[..i] + list[i + 1..] else list
  {
    if i > 0 {
      WithoutFirst(list[1..], c, i - 1);
      if i < |list| {
        assert list[..i] == [list[0]] + list[1..][..i - 1];
        assert list[i + 1..] == list[1..][i..];
      } else {
        assert list == [list[0]] + list[1..];
      }
    }
  }

  lemma SendToNone(chans: seq<Chan>, node: Node)
    ensures Below([], |chans|) && SendEach(chans, [], node) == Ok(chans)
  {
  }

  lemma SendEachLonger(chans: seq<Chan>, targets: seq<nat>, t: nat, node: Node)
    requires Below(targets, |chans|) && t < |chans| && SendEach(chans, targets, node).Ok?
    ensures var cs := SendEach(chans, targets, node).value;
      SendEach(chans, targets + [t], node) == if cs[t].closed then Err(SendOnClosed)
        else Ok(cs[t := TrySend(cs[t], node)])
  {
    assert (targets + [t])[..|targets|] == targets;
  }

  lemma {:induction false} SendErrorStays(chans: seq<Chan>, targets: seq<nat>, k: nat, node: Node)
    requires Below(targets, |chans|) && k <= |targets| && SendEach(chans, targets[..k], node).Err?
    ensures SendEach(chans, targets, node) == SendEach(chans, targets[..k], node)
    decreases |targets|
  {
    if k < |targets| {
      assert targets[..|targets| - 1][..k] == targets[..k];
      SendErrorStays(chans, targets[..|targets| - 1], k, node);
    } else {
      assert targets[..k] == targets;
    }
  }
}
