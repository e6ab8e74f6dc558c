/** Equal timestamps: every run of the sort is the run of timestamps in which the ties have been broken. */
module Ties {
  import opened Types
  import opened Sequences
  import opened TopoOrder
  import opened TopoSort
  import opened TopoLevels

  /** time' breaks the ties of time and changes nothing else about who is older. */
  ghost predicate Refines(time: map<ID, Time>, time': map<ID, Time>) {
    && time'.Keys == time.Keys && DistinctTimes(time')
    && forall x, y :: x in time && y in time && time[x] < time[y] ==> time'[x] < time'[y]
  }

  /** The ties as s breaks them: by timestamp, and by place within a timestamp. */
  ghost function ByPlace(time: map<ID, Time>, s: seq<ID>): (time': map<ID, Time>)
    ensures time'.Keys == time.Keys
  {
    map x | x in time :: time[x] * |s| + if x in s then IndexIn(s, x) else 0
  }

  lemma Spread(a: int, b: int, n: nat, i: nat, j: nat)
    requires a < b && i < n && j < n
    ensures a * n + i < b * n + j
  {
    assert (a + 1) * n <= b * n;
    assert (a + 1) * n == a * n + n;
  }

  lemma ByPlaceBetween(time: map<ID, Time>, s: seq<ID>, x: ID, y: ID)
    requires x in time && y in time && x in s && y in s
    ensures time[x] < time[y] ==> ByPlace(time, s)[x] < ByPlace(time, s)[y]
    ensures time[x] == time[y] ==> (ByPlace(time, s)[x] <= ByPlace(time, s)[y] <==> IndexIn(s, x) <= IndexIn(s, y))
  {
    if time[x] < time[y] { Spread(time[x], time[y], |s|, IndexIn(s, x), IndexIn(s, y)); }
  }

  lemma ByPlaceRefines(D: Relation, time: map<ID, Time>, s: seq<ID>)
    requires FifoOrder(D, time, s) && time.Keys == D.Keys
    ensures Refines(time, ByPlace(time, s))
  {
    hide ByPlace, Layered, DepsEarlier;
    var time' := ByPlace(time, s);
    forall x, y | x in time && y in time ensures x in s && y in s && (time[x] < time[y] ==> time'[x] < time'[y]) {
      ByPlaceBetween(time, s, x, y);
    }
    forall x, y | x in time && y in time && x != y ensures time'[x] != time'[y] {
      ByPlaceBetween(time, s, x, y);
      ByPlaceBetween(time, s, y, x);
      assert s[IndexIn(s, x)] == x && s[IndexIn(s, y)] == y;
    }
  }

  lemma RefinedLayers(D: Relation, time: map<ID, Time>, time': map<ID, Time>, s: seq<ID>)
    requires Refines(time, time') && Layered(D, time', s)
    ensures Layered(D, time, s)
  {
    forall i, j | 0 <= i < j < |s| ensures NoLater(D, time, s, s[i], s[j]) {
      assert NoLater(D, time', s, s[i], s[j]);
    }
  }

  /** A run under broken ties is a run. */
  lemma RefinedRunIsRun(D: Relation, time: map<ID, Time>, time': map<ID, Time>, s: seq<ID>)
    requires Refines(time, time') && FifoOrder(D, time', s)
    ensures FifoOrder(D, time, s)
  {
    hide DepsEarlier, Layered, Refines;
    RefinedLayers(D, time, time', s);
  }

  /** Every run is the run of its own way to break the ties. */
  lemma RunOfItsTies(D: Relation, time: map<ID, Time>, s: seq<ID>)
    requires FifoOrder(D, time, s) && time.Keys == D.Keys
    ensures Refines(time, ByPlace(time, s)) && FifoOrder(D, ByPlace(time, s), s)
  {
    hide ByPlace, DepsEarlier;
    ByPlaceRefines(D, time, s);
    forall i, j | 0 <= i < j < |s| ensures NoLater(D, ByPlace(time, s), s, s[i], s[j]) {
      assert NoLater(D, time, s, s[i], s[j]);
      FifoPlaces(D, time, s, i);
      FifoPlaces(D, time, s, j);
      ByPlaceBetween(time, s, s[i], s[j]);
    }
  }

  /** The runs of the sort are the runs under all ways to break the ties. */
  lemma RunsAreRefinedRuns(D: Relation, time: map<ID, Time>, s: seq<ID>)
    requires time.Keys == D.Keys
    ensures FifoOrder(D, time, s) <==> exists time' :: Refines(time, time') && FifoOrder(D, time', s)
  {
    hide FifoOrder, Refines;
    if FifoOrder(D, time, s) { RunOfItsTies(D, time, s); }
    if time' :| Refines(time, time') && FifoOrder(D, time', s) { RefinedRunIsRun(D, time, time', s); }
  }

  // ----- every acyclic relation has a run -----

  ghost predicate SortedSet(time: map<ID, Time>, S: set<ID>, s: seq<ID>) {
    Distinct(s) && TimeOrdered(time, s) && forall x :: x in s <==> x in S
  }

  lemma {:induction false} Oldest(time: map<ID, Time>, S: set<ID>) returns (x: ID)
    requires S != {} && S <= time.Keys
    ensures x in S && forall y :: y in S ==> time[x] <= time[y]
  {
    x :| x in S;
    if S != {x} {
      var z := Oldest(time, S - {x});
      assert forall y :: y in S ==> y == x || y in S - {x};
      if time[z] < time[x] { x := z; }
    }
  }

  lemma {:induction false} SetSorts(time: map<ID, Time>, S: set<ID>) returns (s: seq<ID>)
    requires S <= time.Keys
    ensures SortedSet(time, S, s)
  {
    s := [];
    if S != {} {
      var x := Oldest(time, S);
      var rest := SetSorts(time, S - {x});
      s := [x] + rest;
      assert forall y :: y in S <==> y == x || y in S - {x};
      assert forall i :: 0 < i < |s| ==> s[i] in rest;
    }
  }

  lemma {:induction false} KahnRuns(D: Relation, time: map<ID, Time>, inDegree: map<ID, int>, out: seq<ID>,
                                    queue: seq<ID>)
    returns (s: seq<ID>)
    requires KahnInv(D, time, inDegree, out, queue) && Acyclic(D)
    ensures FifoOrder(D, time, s)
    decreases |D| - |out|
  {
    hide FifoOrder, Acyclic, KahnInv;
    if queue == [] {
      if |out| != |D| { KahnStuck(D, time, inDegree, out); }
      KahnComplete(D, time, inDegree, out);
      s := out;
    } else {
      var id, rest := queue[0], queue[1..];
      assert queue == [id] + rest;
      KahnFits(D, time, inDegree, out, queue);
      var inDegree' := map c | c in D :: inDegree[c] - (if id in D[c] then 1 else 0);
      var S := set c | c in D && id in D[c] && inDegree[c] == 1;
      var released := SetSorts(time, S);
      KahnStep(D, time, inDegree, inDegree', out, id, rest, released);
      s := KahnRuns(D, time, inDegree', out + [id], rest + released);
    }
  }

  lemma RunExists(D: Relation, time: map<ID, Time>) returns (s: seq<ID>)
    requires Closed(D) && time.Keys == D.Keys && Acyclic(D)
    ensures FifoOrder(D, time, s)
  {
    hide FifoOrder, Acyclic, KahnInv;
    var inDegree := map id | id in D :: |D[id]|;
    var S := set id | id in D && inDegree[id] == 0;
    var queue := SetSorts(time, S);
    KahnStart(D, time, inDegree, queue);
    s := KahnRuns(D, time, inDegree, [], queue);
  }

  // ----- last in every run -----

  /** Everything else is sooner than h. */
  ghost predicate Latest(D: Relation, time: map<ID, Time>, depth: map<ID, nat>, h: ID) {
    Measured(D, time, depth) && h in D && forall x :: x in D && x != h ==> Sooner(D, time, depth, x, h)
  }

  ghost predicate EndsWith(s: seq<ID>, h: ID) {
    s != [] && s[|s| - 1] == h
  }

  /** Whatever the ties: a run ends with h exactly when h is latest after breaking them as the run does. */
  lemma RunEndsIff(D: Relation, time: map<ID, Time>, s: seq<ID>, depth: map<ID, nat>, h: ID)
    requires FifoOrder(D, time, s) && time.Keys == D.Keys && IsDepth(D, depth) && h in D
    ensures EndsWith(s, h) <==> Latest(D, ByPlace(time, s), depth, h)
  {
    hide Sooner, ByPlace, FifoOrder, IsDepth;
    RunOfItsTies(D, time, s);
    LastIsLatest(D, ByPlace(time, s), s, depth, h);
  }

  lemma RefinedRunEndsIff(D: Relation, time': map<ID, Time>, s: seq<ID>, depth: map<ID, nat>, h: ID)
    requires FifoOrder(D, time', s) && DistinctTimes(time') && IsDepth(D, depth) && h in D
    ensures EndsWith(s, h) <==> Latest(D, time', depth, h)
  {
    hide Sooner, FifoOrder, IsDepth;
    LastIsLatest(D, time', s, depth, h);
  }

  /** Every run ends with h exactly when h is latest however the ties are broken. */
  lemma LastInEveryRunIff(D: Relation, time: map<ID, Time>, depth: map<ID, nat>, h: ID)
    requires Closed(D) && Acyclic(D) && time.Keys == D.Keys && IsDepth(D, depth) && h in D
    ensures (forall s :: FifoOrder(D, time, s) ==> EndsWith(s, h)) <==>
      (forall time' :: Refines(time, time') ==> Latest(D, time', depth, h))
  {
    hide FifoOrder, Latest, EndsWith, ByPlace, IsDepth, Acyclic;
    if forall time' :: Refines(time, time') ==> Latest(D, time', depth, h) {
      forall s | FifoOrder(D, time, s) ensures EndsWith(s, h) {
        RunOfItsTies(D, time, s);
        RunEndsIff(D, time, s, depth, h);
      }
    }
    if forall s :: FifoOrder(D, time, s) ==> EndsWith(s, h) {
      forall time' | Refines(time, time') ensures Latest(D, time', depth, h) {
        var s := RunExists(D, time');
        RefinedRunIsRun(D, time, time', s);
        RefinedRunEndsIff(D, time', s, depth, h);
      }
    }
  }

  // ----- levels -----

  /**
   Whatever the ties: a run keeps levels in timestamp order exactly when ages follow after breaking them as the run
   does.
   */
  lemma RunLevelsIff(D: Relation, time: map<ID, Time>, s: seq<ID>, depth: map<ID, nat>)
    requires FifoOrder(D, time, s) && time.Keys == D.Keys && IsDepth(D, depth)
    ensures Measured(D, ByPlace(time, s), depth)
    ensures LevelsInTimeOrder(time, depth, s) <==> AllAgesFollow(D, ByPlace(time, s), depth)
  {
    hide ByPlace, FifoOrder, IsDepth, AllAgesFollow, LevelsInTimeOrder;
    RunOfItsTies(D, time, s);
    LevelsInTimeOrderIff(D, ByPlace(time, s), s, depth);
    LevelsUnderTies(D, time, s, depth);
  }

  lemma LevelsUnderTies(D: Relation, time: map<ID, Time>, s: seq<ID>, depth: map<ID, nat>)
    requires FifoOrder(D, time, s) && time.Keys == D.Keys
    ensures LevelsInTimeOrder(time, depth, s) <==> LevelsInTimeOrder(ByPlace(time, s), depth, s)
  {
    hide ByPlace, DepsEarlier, Layered;
    var time' := ByPlace(time, s);
    forall i, j | 0 <= i < j < |s|
      ensures s[i] in time && s[j] in time && (time[s[i]] <= time[s[j]] <==> time'[s[i]] <= time'[s[j]])
    {
      FifoPlaces(D, time, s, i);
      FifoPlaces(D, time, s, j);
      ByPlaceBetween(time, s, s[i], s[j]);
      ByPlaceBetween(time, s, s[j], s[i]);
    }
  }
}
