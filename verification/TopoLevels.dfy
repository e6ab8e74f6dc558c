/** How the first-in first-out order places items: within a level of equal depth, and altogether. */
module TopoLevels {
  import opened Types
  import opened TopoOrder

  /** The dependencies of x one level up. */
  ghost function TopDeps(D: Relation, depth: map<ID, nat>, x: ID): set<ID>
    requires x in D && IsDepth(D, depth)
  {
    assert DepthAt(D, depth, x);
    set d | d in D[x] && depth[d] + 1 == depth[x]
  }

  /** All that the placement is made from: D is closed, and every item has a depth and a timestamp. */
  ghost predicate Measured(D: Relation, time: map<ID, Time>, depth: map<ID, nat>) {
    Closed(D) && IsDepth(D, depth) && D.Keys <= time.Keys && D.Keys <= depth.Keys
  }

  lemma FifoMeasured(D: Relation, time: map<ID, Time>, s: seq<ID>, depth: map<ID, nat>)
    requires FifoOrder(D, time, s) && IsDepth(D, depth)
    ensures Measured(D, time, depth)
  {
    forall x | x in D ensures x in time && x in depth && D[x] <= D.Keys {
      assert x in s && DepthAt(D, depth, x);
      ReleasedEarlier(D, s, IndexIn(s, x));
    }
  }

  // ----- the item that releases x -----

  /** The releaser of an item is one of its dependencies one level up, and the last of all of them. */
  lemma Releaser(D: Relation, time: map<ID, Time>, s: seq<ID>, depth: map<ID, nat>, x: ID) returns (r: ID)
    requires FifoOrder(D, time, s) && IsDepth(D, depth) && x in D && x in depth && depth[x] > 0
    ensures x in s && r in s && r in TopDeps(D, depth, x)
    ensures IndexIn(s, r) == LastDep(s, D[x]) < IndexIn(s, x)
    ensures forall d :: d in D[x] ==> d in s && IndexIn(s, d) <= IndexIn(s, r)
  {
    assert DepthAt(D, depth, x);
    var d :| d in D[x] && depth[x] == depth[d] + 1;
    var k := IndexIn(s, x);
    ReleasedEarlier(D, s, k);
    var i := LastDep(s, D[x]);
    r := s[i];
    assert r in s && IndexIn(s, r) == i;
    FifoDepthMonotone(D, time, s, depth, IndexIn(s, d), i);
  }

  /** An item without depth waits for nothing. */
  lemma NoDepthNoDeps(D: Relation, s: seq<ID>, depth: map<ID, nat>, x: ID)
    requires IsDepth(D, depth) && x in D && x in depth && depth[x] == 0
    ensures D[x] == {} && LastDep(s, D[x]) == -1
  {
    assert DepthAt(D, depth, x);
  }

  /** Of two items, the one that stands first was released first, or with the other and is older. */
  lemma FirstStands(D: Relation, time: map<ID, Time>, s: seq<ID>, a: ID, b: ID)
    requires FifoOrder(D, time, s) && DistinctTimes(time) && a in D && b in D && a != b
    ensures a in s && b in s && a in time && b in time
    ensures IndexIn(s, a) < IndexIn(s, b) <==>
      LastDep(s, D[a]) < LastDep(s, D[b]) || (LastDep(s, D[a]) == LastDep(s, D[b]) && time[a] < time[b])
  {
    var i, j := IndexIn(s, a), IndexIn(s, b);
    if i < j { assert NoLater(D, time, s, s[i], s[j]); } else { assert NoLater(D, time, s, s[j], s[i]); }
  }

  // ----- within a level -----

  /** Items of equal depth stand in timestamp order. */
  ghost predicate LevelsInTimeOrder(time: map<ID, Time>, depth: map<ID, nat>, s: seq<ID>) {
    forall i, j :: 0 <= i < j < |s| && s[i] in depth && s[j] in depth && s[i] in time && s[j] in time ==>
      (depth[s[i]] == depth[s[j]] ==> time[s[i]] <= time[s[j]])
  }

  /** d is the youngest dependency of x one level up. */
  ghost predicate Youngest(D: Relation, time: map<ID, Time>, depth: map<ID, nat>, x: ID, d: ID)
    requires x in D && Measured(D, time, depth)
  {
    d in TopDeps(D, depth, x) && forall e :: e in TopDeps(D, depth, x) ==> time[e] <= time[d]
  }

  /** Of two items of equal depth, the one whose youngest dependency one level up is older is no younger itself. */
  ghost predicate AgesFollow(D: Relation, time: map<ID, Time>, depth: map<ID, nat>, x: ID, y: ID)
    requires x in D && y in D && Measured(D, time, depth)
  {
    depth[x] == depth[y] ==>
      forall d, e :: Youngest(D, time, depth, x, d) && Youngest(D, time, depth, y, e) && time[d] < time[e] ==>
        time[x] <= time[y]
  }

  ghost predicate AllAgesFollow(D: Relation, time: map<ID, Time>, depth: map<ID, nat>)
    requires Measured(D, time, depth)
  {
    forall x, y {:trigger AgesFollow(D, time, depth, x, y)} :: x in D && y in D ==> AgesFollow(D, time, depth, x, y)
  }

  /** Up to place k, equal depth means timestamp order. */
  ghost predicate LevelsTo(D: Relation, time: map<ID, Time>, depth: map<ID, nat>, s: seq<ID>, k: nat)
    requires Measured(D, time, depth) && k <= |s| && forall x :: x in s ==> x in D
  {
    forall i, j :: 0 <= i < j < k && depth[s[i]] == depth[s[j]] ==> time[s[i]] <= time[s[j]]
  }

  /** While levels are in timestamp order, the releaser of an item is its youngest dependency one level up. */
  lemma ReleaserIsYoungest(D: Relation, time: map<ID, Time>, s: seq<ID>, depth: map<ID, nat>, k: nat, x: ID)
    returns (r: ID)
    requires FifoOrder(D, time, s) && Measured(D, time, depth) && k <= |s|
    requires x in D && depth[x] > 0 && LevelsTo(D, time, depth, s, k)
    requires forall i :: 0 <= i < |s| && s[i] == x ==> i <= k
    ensures x in s && r in s && Youngest(D, time, depth, x, r)
    ensures IndexIn(s, r) == LastDep(s, D[x]) < IndexIn(s, x) && depth[r] + 1 == depth[x]
  {
    r := Releaser(D, time, s, depth, x);
    forall e | e in TopDeps(D, depth, x) ensures time[e] <= time[r] {
      var i, j := IndexIn(s, e), IndexIn(s, r);
      assert i <= j && (i == j ==> e == r);
    }
  }

  lemma LevelStep(D: Relation, time: map<ID, Time>, s: seq<ID>, depth: map<ID, nat>, i: nat, k: nat)
    requires FifoOrder(D, time, s) && Measured(D, time, depth) && DistinctTimes(time) && AllAgesFollow(D, time, depth)
    requires i < k < |s| && s[i] in D && s[k] in D && depth[s[i]] == depth[s[k]] && LevelsTo(D, time, depth, s, k)
    ensures time[s[i]] <= time[s[k]]
  {
    hide Youngest, FifoOrder, AgesFollow;
    var x, y := s[i], s[k];
    FifoPlaces(D, time, s, i);
    FifoPlaces(D, time, s, k);
    FirstStands(D, time, s, x, y);
    if depth[x] == 0 {
      NoDepthNoDeps(D, s, depth, x);
      NoDepthNoDeps(D, s, depth, y);
    } else {
      var d := ReleaserIsYoungest(D, time, s, depth, k, x);
      var e := ReleaserIsYoungest(D, time, s, depth, k, y);
      if IndexIn(s, d) < IndexIn(s, e) {
        assert time[d] <= time[e] && d != e;
        assert AgesFollow(D, time, depth, x, y);
        AgesApply(D, time, depth, x, y, d, e);
      }
    }
  }

  lemma AgesApply(D: Relation, time: map<ID, Time>, depth: map<ID, nat>, x: ID, y: ID, d: ID, e: ID)
    requires x in D && y in D && Measured(D, time, depth) && AgesFollow(D, time, depth, x, y) && depth[x] == depth[y]
    requires Youngest(D, time, depth, x, d) && Youngest(D, time, depth, y, e) && d in time && e in time
    requires time[d] < time[e]
    ensures time[x] <= time[y]
  {
  }

  /** An item stands in one place only. */
  lemma FifoPlaces(D: Relation, time: map<ID, Time>, s: seq<ID>, k: nat)
    requires FifoOrder(D, time, s) && k < |s|
    ensures s[k] in s && IndexIn(s, s[k]) == k && forall i :: 0 <= i < |s| && s[i] == s[k] ==> i == k
  {
    assert s[k] in s;
  }

  lemma {:induction false} AgesGiveLevels(D: Relation, time: map<ID, Time>, s: seq<ID>, depth: map<ID, nat>, k: nat)
    requires FifoOrder(D, time, s) && Measured(D, time, depth) && DistinctTimes(time) && AllAgesFollow(D, time, depth)
    requires k <= |s| && forall x :: x in s ==> x in D
    ensures LevelsTo(D, time, depth, s, k)
  {
    if k > 0 {
      AgesGiveLevels(D, time, s, depth, k - 1);
      forall i, j | 0 <= i < j < k && depth[s[i]] == depth[s[j]] ensures time[s[i]] <= time[s[j]] {
        if j == k - 1 { LevelStep(D, time, s, depth, i, j); }
      }
    }
  }

  lemma LevelsGiveAges(D: Relation, time: map<ID, Time>, s: seq<ID>, depth: map<ID, nat>, x: ID, y: ID, d: ID, e: ID)
    requires FifoOrder(D, time, s) && Measured(D, time, depth) && DistinctTimes(time) && (forall x :: x in s ==> x in D)
    requires LevelsTo(D, time, depth, s, |s|) && x in D && y in D && depth[x] == depth[y]
    requires Youngest(D, time, depth, x, d) && Youngest(D, time, depth, y, e) && time[d] < time[e]
    ensures time[x] <= time[y]
  {
    var rx := ReleaserIsYoungest(D, time, s, depth, |s|, x);
    var ry := ReleaserIsYoungest(D, time, s, depth, |s|, y);
    assert rx == d && ry == e;
    var i, j := IndexIn(s, d), IndexIn(s, e);
    assert i < j by { assert depth[s[j]] == depth[s[i]]; }
    FirstStands(D, time, s, x, y);
    assert IndexIn(s, x) < IndexIn(s, y);
  }

  /**
   When a level is in timestamp order: the sort keeps equal depths in timestamp order exactly when ages
   follow the youngest dependencies one level up, a condition on dependencies, depths and timestamps alone.
   */
  lemma LevelsInTimeOrderIff(D: Relation, time: map<ID, Time>, s: seq<ID>, depth: map<ID, nat>)
    requires FifoOrder(D, time, s) && IsDepth(D, depth) && DistinctTimes(time)
    ensures Measured(D, time, depth)
    ensures LevelsInTimeOrder(time, depth, s) <==> AllAgesFollow(D, time, depth)
  {
    FifoMeasured(D, time, s, depth);
    if AllAgesFollow(D, time, depth) {
      AgesGiveLevels(D, time, s, depth, |s|);
    }
    if LevelsInTimeOrder(time, depth, s) {
      forall x, y | x in D && y in D ensures AgesFollow(D, time, depth, x, y) {
        if depth[x] == depth[y] {
          forall d, e | Youngest(D, time, depth, x, d) && Youngest(D, time, depth, y, e) && time[d] < time[e]
            ensures time[x] <= time[y]
          {
            LevelsGiveAges(D, time, s, depth, x, y, d, e);
          }
        }
      }
    }
  }

  // ----- altogether -----

  /** Every top dependency of a is sooner than some top dependency of b: a is released by an earlier item. */
  ghost predicate ReleasedSooner(D: Relation, time: map<ID, Time>, depth: map<ID, nat>, a: ID, b: ID)
    requires a in D && b in D && Measured(D, time, depth) && depth[a] == depth[b]
    decreases depth[a], 0
  {
    exists e :: e in TopDeps(D, depth, b) && forall d :: d in TopDeps(D, depth, a) ==> Sooner(D, time, depth, d, e)
  }

  /** One dependency is the last of both a and b: they are released together. */
  ghost predicate ReleasedTogether(D: Relation, time: map<ID, Time>, depth: map<ID, nat>, a: ID, b: ID)
    requires a in D && b in D && Measured(D, time, depth) && depth[a] == depth[b]
    decreases depth[a], 0
  {
    exists r :: r in TopDeps(D, depth, a) && r in TopDeps(D, depth, b)
      && forall d :: (d in TopDeps(D, depth, a) || d in TopDeps(D, depth, b)) && d != r ==> Sooner(D, time, depth, d, r)
  }

  /**
   a is sorted before b, in terms of dependencies, depths and timestamps alone: it is less deep; or as deep and
   released by an earlier item; or, as every two roots are, released together and older.
   */
  ghost predicate Sooner(D: Relation, time: map<ID, Time>, depth: map<ID, nat>, a: ID, b: ID)
    requires a in D && b in D && Measured(D, time, depth)
    decreases depth[a], 1
  {
    depth[a] < depth[b]
    || (depth[a] == depth[b]
        && if depth[a] == 0 then time[a] < time[b]
           else ReleasedSooner(D, time, depth, a, b) || (ReleasedTogether(D, time, depth, a, b) && time[a] < time[b]))
  }

  /** Below a given depth, Sooner says which of two items of equal depth stands first. */
  ghost predicate SoonerIsPlace(D: Relation, time: map<ID, Time>, depth: map<ID, nat>, s: seq<ID>, a: ID, b: ID)
    requires a in D && b in D && Measured(D, time, depth) && a in s && b in s
  {
    Sooner(D, time, depth, a, b) <==> IndexIn(s, a) < IndexIn(s, b)
  }

  lemma ReleasedSoonerIsPlace(D: Relation, time: map<ID, Time>, depth: map<ID, nat>, s: seq<ID>, a: ID, b: ID, ra: ID,
                              rb: ID)
    requires a in D && b in D && Measured(D, time, depth) && depth[a] == depth[b] && forall x :: x in D ==> x in s
    requires ra in TopDeps(D, depth, a) && rb in TopDeps(D, depth, b)
    requires forall d :: d in TopDeps(D, depth, a) ==> IndexIn(s, d) <= IndexIn(s, ra)
    requires forall d :: d in TopDeps(D, depth, b) ==> IndexIn(s, d) <= IndexIn(s, rb)
    requires forall d, e :: d in TopDeps(D, depth, a) && e in TopDeps(D, depth, b) ==>
      SoonerIsPlace(D, time, depth, s, d, e)
    ensures ReleasedSooner(D, time, depth, a, b) <==> IndexIn(s, ra) < IndexIn(s, rb)
  {
    hide Sooner;
    if ReleasedSooner(D, time, depth, a, b) {
      var e :| e in TopDeps(D, depth, b) && forall d :: d in TopDeps(D, depth, a) ==> Sooner(D, time, depth, d, e);
      assert Sooner(D, time, depth, ra, e) && SoonerIsPlace(D, time, depth, s, ra, e);
    }
    if IndexIn(s, ra) < IndexIn(s, rb) {
      forall d | d in TopDeps(D, depth, a) ensures Sooner(D, time, depth, d, rb) {
        assert SoonerIsPlace(D, time, depth, s, d, rb);
      }
    }
  }

  lemma ReleasedTogetherIsPlace(D: Relation, time: map<ID, Time>, depth: map<ID, nat>, s: seq<ID>, a: ID, b: ID, ra: ID,
                                rb: ID)
    requires a in D && b in D && Measured(D, time, depth) && depth[a] == depth[b] && forall x :: x in D ==> x in s
    requires ra in TopDeps(D, depth, a) && rb in TopDeps(D, depth, b)
    requires forall d :: d in TopDeps(D, depth, a) ==> IndexIn(s, d) <= IndexIn(s, ra)
    requires forall d :: d in TopDeps(D, depth, b) ==> IndexIn(s, d) <= IndexIn(s, rb)
    requires forall d, e ::
      d in TopDeps(D, depth, a) + TopDeps(D, depth, b) && e in TopDeps(D, depth, a) + TopDeps(D, depth, b) ==>
      SoonerIsPlace(D, time, depth, s, d, e)
    ensures ReleasedTogether(D, time, depth, a, b) <==> ra == rb
  {
    hide Sooner;
    var all := TopDeps(D, depth, a) + TopDeps(D, depth, b);
    if ReleasedTogether(D, time, depth, a, b) {
      var r :| r in TopDeps(D, depth, a) && r in TopDeps(D, depth, b)
        && forall d :: (d in TopDeps(D, depth, a) || d in TopDeps(D, depth, b)) && d != r ==>
          Sooner(D, time, depth, d, r);
      assert r in all && ra in all && rb in all;
      assert SoonerIsPlace(D, time, depth, s, ra, r) && SoonerIsPlace(D, time, depth, s, rb, r);
    }
    if ra == rb {
      forall d | (d in TopDeps(D, depth, a) || d in TopDeps(D, depth, b)) && d != ra
        ensures Sooner(D, time, depth, d, ra)
      {
        assert d in all && ra in all;
        assert SoonerIsPlace(D, time, depth, s, d, ra);
        assert s[IndexIn(s, d)] == d && s[IndexIn(s, ra)] == ra;
      }
    }
  }

  lemma DeeperStandsLater(D: Relation, time: map<ID, Time>, s: seq<ID>, depth: map<ID, nat>, a: ID, b: ID)
    requires FifoOrder(D, time, s) && Measured(D, time, depth) && a in D && b in D && depth[a] < depth[b]
    ensures a in s && b in s && IndexIn(s, a) < IndexIn(s, b)
  {
    assert a in s && b in s;
    if IndexIn(s, b) <= IndexIn(s, a) {
      FifoDepthMonotone(D, time, s, depth, IndexIn(s, b), IndexIn(s, a));
    }
  }

  /** Sooner is the order of the sort. */
  lemma {:induction false} SoonerStandsFirst(D: Relation, time: map<ID, Time>, s: seq<ID>, depth: map<ID, nat>, a: ID,
                                             b: ID)
    requires FifoOrder(D, time, s) && Measured(D, time, depth) && DistinctTimes(time) && a in D && b in D
    ensures a in s && b in s && SoonerIsPlace(D, time, depth, s, a, b)
    decreases if depth[a] == depth[b] then 2 * depth[a] + 1 else 0
  {
    assert a in s && b in s;
    if depth[a] < depth[b] {
      DeeperStandsLater(D, time, s, depth, a, b);
    } else if depth[b] < depth[a] {
      DeeperStandsLater(D, time, s, depth, b, a);
    } else if depth[a] == 0 {
      NoDepthNoDeps(D, s, depth, a);
      NoDepthNoDeps(D, s, depth, b);
      if a != b { FirstStands(D, time, s, a, b); }
    } else {
      SoonerByRelease(D, time, s, depth, a, b);
    }
  }

  lemma {:induction false} SoonerByRelease(D: Relation, time: map<ID, Time>, s: seq<ID>, depth: map<ID, nat>, a: ID,
                                           b: ID)
    requires FifoOrder(D, time, s) && Measured(D, time, depth) && DistinctTimes(time) && a in D && b in D
    requires depth[a] == depth[b] > 0
    ensures a in s && b in s && SoonerIsPlace(D, time, depth, s, a, b)
    decreases 2 * depth[a]
  {
    var ra := Releaser(D, time, s, depth, a);
    var rb := Releaser(D, time, s, depth, b);
    assert forall x :: x in D ==> x in s;
    var all := TopDeps(D, depth, a) + TopDeps(D, depth, b);
    forall d, e | d in all && e in all ensures d in D && e in D && SoonerIsPlace(D, time, depth, s, d, e) {
      SoonerStandsFirst(D, time, s, depth, d, e);
    }
    assert forall d, e :: d in TopDeps(D, depth, a) && e in TopDeps(D, depth, b) ==> d in all && e in all;
    ReleasedSoonerIsPlace(D, time, depth, s, a, b, ra, rb);
    ReleasedTogetherIsPlace(D, time, depth, s, a, b, ra, rb);
    if a != b {
      FirstStands(D, time, s, a, b);
      assert s[IndexIn(s, ra)] == ra && s[IndexIn(s, rb)] == rb;
    }
  }

  /** The last sorted item is h exactly when every other item is sooner. */
  lemma LastIsLatest(D: Relation, time: map<ID, Time>, s: seq<ID>, depth: map<ID, nat>, h: ID)
    requires FifoOrder(D, time, s) && IsDepth(D, depth) && DistinctTimes(time) && h in D
    ensures s != [] && Measured(D, time, depth)
    ensures s[|s| - 1] == h <==> forall x :: x in D && x != h ==> Sooner(D, time, depth, x, h)
  {
    hide Sooner;
    FifoMeasured(D, time, s, depth);
    assert h in s;
    var last := |s| - 1;
    forall x | x in D ensures x in s && SoonerIsPlace(D, time, depth, s, x, h) {
      SoonerStandsFirst(D, time, s, depth, x, h);
    }
    FifoPlaces(D, time, s, last);
    assert s[IndexIn(s, h)] == h;
    if s[last] != h {
      assert s[last] in D && SoonerIsPlace(D, time, depth, s, s[last], h);
    }
    forall x | x in D && x != h && s[last] == h ensures Sooner(D, time, depth, x, h) {
      assert SoonerIsPlace(D, time, depth, s, x, h) && s[IndexIn(s, x)] == x;
    }
  }
}
