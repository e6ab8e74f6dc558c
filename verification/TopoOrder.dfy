/**
 Cycles, topological orders and the first-in first-out order, over a finite dependency relation:
 D maps each item to the items it waits for.
 */
module TopoOrder {
  import opened Types
  import opened Sequences

  type Relation = map<ID, set<ID>>

  ghost predicate Closed(D: Relation) {
    forall id :: id in D ==> D[id] <= D.Keys
  }

  ghost predicate WaitsForNext(D: Relation, c: seq<ID>, i: int) {
    0 <= i < |c| - 1 && c[i] in D && c[i + 1] in D[c[i]]
  }

  /** Every element but the last waits for its successor, and the ends meet. */
  ghost predicate IsCycle(D: Relation, c: seq<ID>) {
    && |c| >= 2 && c[0] == c[|c| - 1]
    && forall i :: 0 <= i < |c| - 1 ==> WaitsForNext(D, c, i)
  }

  ghost predicate Acyclic(D: Relation) {
    forall c :: !IsCycle(D, c)
  }

  ghost predicate DepsEarlier(D: Relation, s: seq<ID>, k: nat)
    requires k < |s|
  {
    s[k] in D && forall d :: d in D[s[k]] ==> d in s[..k]
  }

  /** A permutation of the items with every dependency before its dependents. */
  ghost predicate DepOrder(D: Relation, s: seq<ID>) {
    && Distinct(s) && (forall x :: x in s <==> x in D)
    && forall k :: 0 <= k < |s| ==> DepsEarlier(D, s, k)
  }

  // ----- first-in first-out layering -----

  /** The last place in s holding a member of `deps`; -1 if none. */
  ghost function LastDep(s: seq<ID>, deps: set<ID>): (k: int)
    ensures -1 <= k < |s|
    ensures k >= 0 ==> s[k] in deps
    ensures forall i :: k < i < |s| ==> s[i] !in deps
  {
    if s == [] then -1
    else if s[|s| - 1] in deps then |s| - 1
    else LastDep(s[..|s| - 1], deps)
  }

  /** a is placed no later than b: it was released by an earlier item, or by the same item and is not younger. */
  ghost predicate NoLater(D: Relation, time: map<ID, Time>, s: seq<ID>, a: ID, b: ID)
    requires a in D && b in D && a in time && b in time
  {
    var ra, rb := LastDep(s, D[a]), LastDep(s, D[b]);
    ra < rb || (ra == rb && time[a] <= time[b])
  }

  ghost predicate Layered(D: Relation, time: map<ID, Time>, s: seq<ID>) {
    && (forall x :: x in s ==> x in D && x in time)
    && forall i, j :: 0 <= i < j < |s| ==> NoLater(D, time, s, s[i], s[j])
  }

  ghost predicate FifoOrder(D: Relation, time: map<ID, Time>, s: seq<ID>) {
    DepOrder(D, s) && Layered(D, time, s)
  }

  // ----- an order excludes cycles, and a stuck set contains one -----

  ghost function IndexIn(s: seq<ID>, id: ID): (k: nat)
    requires id in s
    ensures k < |s| && s[k] == id
  {
    var k: nat :| k < |s| && s[k] == id; k
  }

  lemma DepIsEarlier(D: Relation, s: seq<ID>, k: nat, d: ID)
    requires DepOrder(D, s) && k < |s| && s[k] in D && d in D[s[k]]
    ensures d in s && IndexIn(s, d) < k
  {
    assert DepsEarlier(D, s, k);
    var j :| 0 <= j < k && s[..k][j] == d;
    assert s[j] == d;
  }

  lemma {:induction false} CycleDescends(D: Relation, s: seq<ID>, c: seq<ID>, i: nat)
    requires DepOrder(D, s) && IsCycle(D, c) && 0 < i < |c|
    ensures c[0] in s && c[i] in s && IndexIn(s, c[i]) < IndexIn(s, c[0])
  {
    var above := i - 1;
    assert WaitsForNext(D, c, above);
    DepIsEarlier(D, s, IndexIn(s, c[above]), c[i]);
    if above > 0 {
      CycleDescends(D, s, c, above);
    }
  }

  lemma OrderedIsAcyclic(D: Relation, s: seq<ID>)
    requires DepOrder(D, s)
    ensures Acyclic(D)
  {
    forall c ensures !IsCycle(D, c) {
      if IsCycle(D, c) { CycleDescends(D, s, c, |c| - 1); }
    }
  }

  lemma {:induction false} DistinctFits(s: seq<ID>, S: set<ID>)
    requires Distinct(s) && forall x :: x in s ==> x in S
    ensures |s| <= |S|
    ensures |s| == |S| ==> forall x :: x in S ==> x in s
  {
    if s != [] {
      var m := |s| - 1;
      assert s[m] in s && s == s[..m] + [s[m]];
      DistinctFits(s[..m], S - {s[m]});
    }
  }

  ghost predicate WaitsInside(D: Relation, S: set<ID>, id: ID) {
    id in D && exists d :: d in D[id] && d in S
  }

  /** A walk of n steps along dependencies inside S. */
  lemma {:induction false} Walk(D: Relation, S: set<ID>, n: nat) returns (w: seq<ID>)
    requires S != {} && forall id :: id in S ==> WaitsInside(D, S, id)
    ensures |w| == n + 1 && (forall i :: 0 <= i < |w| ==> w[i] in S)
    ensures forall i :: 0 <= i < |w| - 1 ==> WaitsForNext(D, w, i)
  {
    if n == 0 {
      var id :| id in S;
      w := [id];
    } else {
      var w' := Walk(D, S, n - 1);
      assert WaitsInside(D, S, w'[n - 1]);
      var d :| d in D[w'[n - 1]] && d in S;
      w := w' + [d];
      forall i | 0 <= i < |w| - 1 ensures WaitsForNext(D, w, i) {
        if i < n - 1 { assert WaitsForNext(D, w', i); }
      }
    }
  }

  lemma WalkRepeats(w: seq<ID>, S: set<ID>) returns (i: nat, j: nat)
    requires |w| > |S| && forall k :: 0 <= k < |w| ==> w[k] in S
    ensures i < j < |w| && w[i] == w[j]
  {
    if Distinct(w) {
      DistinctFits(w, S);
    }
    i, j :| 0 <= i < j < |w| && w[i] == w[j];
  }

  /** If every item of a non-empty set waits for another of the set, the set contains a cycle. */
  lemma StuckSetHasCycle(D: Relation, S: set<ID>) returns (c: seq<ID>)
    requires S != {} && forall id :: id in S ==> WaitsInside(D, S, id)
    ensures IsCycle(D, c) && forall x :: x in c ==> x in S
  {
    var w := Walk(D, S, |S|);
    var i, j := WalkRepeats(w, S);
    c := w[i..j + 1];
    forall a | 0 <= a < |c| - 1 ensures WaitsForNext(D, c, a) {
      assert WaitsForNext(D, w, i + a);
    }
  }

  // ----- with distinct timestamps the order is unique -----

  ghost predicate DistinctTimes(time: map<ID, Time>) {
    forall a, b :: a in time && b in time && a != b ==> time[a] != time[b]
  }

  lemma {:induction false} LastDepPrefix(s: seq<ID>, k: nat, deps: set<ID>)
    requires k <= |s| && forall i :: k <= i < |s| ==> s[i] !in deps
    ensures LastDep(s, deps) == LastDep(s[..k], deps)
  {
    if k < |s| {
      LastDepPrefix(s[..|s| - 1], k, deps);
      assert s[..|s| - 1][..k] == s[..k];
    } else {
      assert s[..k] == s;
    }
  }

  /** An item all of whose dependencies lie in the first k places is released there. */
  lemma ReleasedInPrefix(s: seq<ID>, k: nat, deps: set<ID>)
    requires Distinct(s) && k <= |s| && forall d :: d in deps ==> d in s[..k]
    ensures LastDep(s, deps) == LastDep(s[..k], deps)
  {
    forall i | k <= i < |s| ensures s[i] !in deps {
      assert s[i] !in s[..k];
    }
    LastDepPrefix(s, k, deps);
  }

  /** Where t differs from s at place k, t's choice comes later in s. */
  lemma LaterIn(D: Relation, time: map<ID, Time>, s: seq<ID>, t: seq<ID>, k: nat)
    requires FifoOrder(D, time, s) && FifoOrder(D, time, t) && k < |s| && k < |t| && s[..k] == t[..k] && s[k] != t[k]
    ensures s[k] in D && t[k] in D && s[k] in time && t[k] in time && NoLater(D, time, s, s[k], t[k])
  {
    assert s[k] in s && t[k] in t && t[k] in s;
    var j := IndexIn(s, t[k]);
    assert t[k] !in t[..k];
  }

  lemma SameChoice(D: Relation, time: map<ID, Time>, s: seq<ID>, t: seq<ID>, k: nat)
    requires FifoOrder(D, time, s) && FifoOrder(D, time, t) && DistinctTimes(time)
    requires k < |s| && k < |t| && s[..k] == t[..k]
    ensures s[k] == t[k]
  {
    assert DepsEarlier(D, s, k) && DepsEarlier(D, t, k);
    ReleasedInPrefix(s, k, D[s[k]]);
    ReleasedInPrefix(s, k, D[t[k]]);
    ReleasedInPrefix(t, k, D[s[k]]);
    ReleasedInPrefix(t, k, D[t[k]]);
    if s[k] != t[k] {
      LaterIn(D, time, s, t, k);
      LaterIn(D, time, t, s, k);
    }
  }

  lemma {:induction false} FifoPrefixUnique(D: Relation, time: map<ID, Time>, s: seq<ID>, t: seq<ID>, k: nat)
    requires FifoOrder(D, time, s) && FifoOrder(D, time, t) && DistinctTimes(time)
    requires k <= |s| && k <= |t|
    ensures s[..k] == t[..k]
  {
    if k > 0 {
      FifoPrefixUnique(D, time, s, t, k - 1);
      SameChoice(D, time, s, t, k - 1);
      assert s[..k] == s[..k - 1] + [s[k - 1]] && t[..k] == t[..k - 1] + [t[k - 1]];
    }
  }

  lemma DepOrderLength(D: Relation, s: seq<ID>)
    requires DepOrder(D, s)
    ensures |s| == |D|
  {
    DistinctFits(s, D.Keys);
    DistinctCovers(s, D.Keys);
  }

  lemma {:induction false} DistinctCovers(s: seq<ID>, S: set<ID>)
    requires Distinct(s) && forall x :: x in S ==> x in s
    ensures |S| <= |s|
  {
    if s != [] {
      var m := |s| - 1;
      DistinctCovers(s[..m], S - {s[m]});
      assert s == s[..m] + [s[m]];
    } else {
      assert S == {};
    }
  }

  /** Determinism: with pairwise distinct timestamps there is only one first-in first-out order. */
  lemma FifoUnique(D: Relation, time: map<ID, Time>, s: seq<ID>, t: seq<ID>)
    requires FifoOrder(D, time, s) && FifoOrder(D, time, t) && DistinctTimes(time)
    ensures s == t
  {
    DepOrderLength(D, s);
    DepOrderLength(D, t);
    FifoPrefixUnique(D, time, s, t, |s|);
    assert s[..|s|] == s && t[..|t|] == t;
  }

  // ----- depth -----

  ghost predicate DepthAt(D: Relation, depth: map<ID, nat>, id: ID)
    requires id in D
  {
    && id in depth
    && (forall d :: d in D[id] ==> d in depth && depth[d] < depth[id])
    && (depth[id] > 0 ==> exists d :: d in D[id] && depth[id] == depth[d] + 1)
  }

  /** `depth` is the length of the longest chain of dependencies. */
  ghost predicate IsDepth(D: Relation, depth: map<ID, nat>) {
    forall id {:trigger DepthAt(D, depth, id)} :: id in D ==> DepthAt(D, depth, id)
  }

  lemma {:induction false} Deepest(S: set<ID>, depth: map<ID, nat>) returns (best: ID)
    requires S != {} && S <= depth.Keys
    ensures best in S && forall d :: d in S ==> depth[d] <= depth[best]
  {
    var x :| x in S;
    if S == {x} {
      best := x;
    } else {
      var y := Deepest(S - {x}, depth);
      best := if depth[y] < depth[x] then x else y;
      assert forall d :: d in S ==> d == x || d in S - {x};
    }
  }

  /** Every ordered relation has a depth. */
  lemma {:induction false} DepthExists(D: Relation, s: seq<ID>, k: nat) returns (depth: map<ID, nat>)
    requires DepOrder(D, s) && k <= |s|
    ensures forall id :: id in depth <==> id in s[..k]
    ensures forall id :: id in s[..k] ==> id in D && DepthAt(D, depth, id)
  {
    if k == 0 {
      depth := map[];
    } else {
      var before := DepthExists(D, s, k - 1);
      var id := s[k - 1];
      assert DepsEarlier(D, s, k - 1);
      assert s[..k] == s[..k - 1] + [id];
      if D[id] == {} {
        depth := before[id := 0];
      } else {
        var best := Deepest(D[id], before);
        depth := before[id := before[best] + 1];
      }
      assert id !in s[..k - 1];
      forall x | x in s[..k - 1] ensures DepthAt(D, depth, x) {
        assert DepthAt(D, before, x);
      }
    }
  }

  lemma ReleasedEarlier(D: Relation, s: seq<ID>, k: nat)
    requires DepOrder(D, s) && k < |s|
    ensures s[k] in D && LastDep(s, D[s[k]]) < k
    ensures forall d :: d in D[s[k]] ==> d in s && IndexIn(s, d) <= LastDep(s, D[s[k]])
  {
    assert DepsEarlier(D, s, k);
    var r := LastDep(s, D[s[k]]);
    if r >= 0 {
      DepIsEarlier(D, s, k, s[r]);
    }
    forall d | d in D[s[k]] ensures d in s && IndexIn(s, d) <= r {
      DepIsEarlier(D, s, k, d);
    }
  }

  /** Layering: depth never falls along the sorted order. */
  lemma {:induction false} FifoDepthMonotone(D: Relation, time: map<ID, Time>, s: seq<ID>, depth: map<ID, nat>, i: nat,
                                             j: nat)
    requires FifoOrder(D, time, s) && IsDepth(D, depth) && i <= j < |s|
    ensures s[i] in D && s[j] in D && s[i] in depth && s[j] in depth && depth[s[i]] <= depth[s[j]]
    decreases i + j
  {
    var a, b := s[i], s[j];
    assert a in s && b in s;
    assert DepthAt(D, depth, a) && DepthAt(D, depth, b);
    if i < j && depth[a] > 0 {
      var d :| d in D[a] && depth[a] == depth[d] + 1;
      var r := LastDep(s, D[b]);
      ReleasedNoLater(D, time, s, i, j, d);
      FifoDepthMonotone(D, time, s, depth, IndexIn(s, d), r);
      assert depth[s[r]] < depth[b];
    }
  }

  /** The last item of the order has the greatest depth. */
  lemma FifoLastIsDeepest(D: Relation, time: map<ID, Time>, s: seq<ID>, depth: map<ID, nat>, id: ID)
    requires FifoOrder(D, time, s) && IsDepth(D, depth) && id in D
    ensures s != [] && s[|s| - 1] in depth && id in depth && depth[id] <= depth[s[|s| - 1]]
  {
    assert id in s;
    FifoDepthMonotone(D, time, s, depth, IndexIn(s, id), |s| - 1);
  }

  /** A dependency of an earlier item stands no later than the releaser of a later item. */
  lemma ReleasedNoLater(D: Relation, time: map<ID, Time>, s: seq<ID>, i: nat, j: nat, d: ID)
    requires FifoOrder(D, time, s) && i < j < |s| && s[i] in D && s[j] in D && d in D[s[i]]
    ensures d in s && IndexIn(s, d) <= LastDep(s, D[s[j]]) < j && IndexIn(s, d) < i
  {
    ReleasedEarlier(D, s, i);
    ReleasedEarlier(D, s, j);
    assert NoLater(D, time, s, s[i], s[j]);
  }
}
