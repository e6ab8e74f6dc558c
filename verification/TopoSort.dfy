/** Kahn's algorithm over a node table, as the loops run it. */
module TopoSort {
  import opened Types
  import opened Sequences
  import opened GraphState
  import opened TopoOrder

  // ----- the relation a node table defines -----

  predicate IsDependency(e: EdgeRef) {
    e.kind == PARENT || e.kind == BRANCH_FROM
  }

  /** Targets of parent and branch_from edges, in edge order. */
  function DependencyIDs(edges: seq<EdgeRef>): seq<ID> {
    if edges == [] then []
    else
      var e, before := edges[|edges| - 1], DependencyIDs(edges[..|edges| - 1]);
      if IsDependency(e) then before + [e.nodeID] else before
  }

  /** The stored nodes among the first k references. */
  ghost function InScope(m: map<ID, Node>, refs: seq<ID>, k: nat): set<ID>
    requires k <= |refs|
  {
    if k == 0 then {}
    else if refs[k - 1] in m then InScope(m, refs, k - 1) + {refs[k - 1]}
    else InScope(m, refs, k - 1)
  }

  lemma {:induction false} InScopeMembers(m: map<ID, Node>, refs: seq<ID>, k: nat, r: ID)
    requires k <= |refs|
    ensures r in InScope(m, refs, k) <==> r in refs[..k] && r in m
  {
    if k != 0 {
      InScopeMembers(m, refs, k - 1, r);
      assert refs[..k] == refs[..k - 1] + [refs[k - 1]];
    }
  }

  lemma InScopeNext(m: map<ID, Node>, refs: seq<ID>, k: nat)
    requires k <= |refs|
    ensures InScope(m, refs, k) ==
      if k == 0 then {}
      else if refs[k - 1] in m then InScope(m, refs, k - 1) + {refs[k - 1]}
      else InScope(m, refs, k - 1)
  {
  }

  ghost function Deps(m: map<ID, Node>, n: Node): set<ID> {
    InScope(m, DependencyIDs(n.edges), |DependencyIDs(n.edges)|)
  }

  /** What each stored node must wait for; references outside the table are ignored. */
  ghost function DepMap(m: map<ID, Node>): (D: Relation)
    ensures D.Keys == m.Keys
  {
    map id | id in m :: Deps(m, m[id])
  }

  lemma {:induction false} DependencyIDsMembers(edges: seq<EdgeRef>, r: ID)
    ensures r in DependencyIDs(edges) <==> exists e :: e in edges && IsDependency(e) && e.nodeID == r
  {
    if edges != [] {
      var m := |edges| - 1;
      DependencyIDsMembers(edges[..m], r);
      assert edges == edges[..m] + [edges[m]];
    }
  }

  lemma DepMember(m: map<ID, Node>, id: ID, d: ID)
    requires id in m
    ensures d in DepMap(m)[id] <==> d in m && exists e :: e in m[id].edges && IsDependency(e) && e.nodeID == d
  {
    var refs := DependencyIDs(m[id].edges);
    InScopeMembers(m, refs, |refs|, d);
    assert refs[..|refs|] == refs;
    DependencyIDsMembers(m[id].edges, d);
  }

  /** A node waits for the stored targets of its parent and branch_from edges, and for nothing else. */
  lemma WaitsForTargets(m: map<ID, Node>, id: ID, d: ID)
    requires id in m
    ensures d in DepMap(m)[id] <==>
      d in m && exists e :: e in m[id].edges && e.nodeID == d && (e.kind == PARENT || e.kind == BRANCH_FROM)
  {
    DepMember(m, id, d);
    if e :| e in m[id].edges && e.nodeID == d && (e.kind == PARENT || e.kind == BRANCH_FROM) {
      assert IsDependency(e);
    }
  }

  ghost function Times(m: map<ID, Node>): (t: map<ID, Time>)
    ensures t.Keys == m.Keys
  {
    map id | id in m :: m[id].timestamp
  }

  ghost predicate Keyed(m: map<ID, Node>) {
    forall id :: id in m ==> m[id].id == id
  }

  method CollectDependencies(edges: seq<EdgeRef>) returns (ids: seq<ID>)
    ensures ids == DependencyIDs(edges)
  {
    ids := [];
    for i := 0 to |edges|
      invariant ids == DependencyIDs(edges[..i])
    {
      assert edges[..i + 1][..i] == edges[..i];
      if edges[i].kind == PARENT || edges[i].kind == BRANCH_FROM {
        ids := ids + [edges[i].nodeID];
      }
    }
    assert edges[..|edges|] == edges;
  }

  // ----- in-degrees and reverse edges -----

  ghost predicate ReverseAt(D: Relation, edgesFrom: map<ID, seq<ID>>, done: set<ID>, r: ID) {
    && Distinct(ChildList(edgesFrom, r))
    && forall c :: c in ChildList(edgesFrom, r) <==> c in done && c in D && r in D[c]
  }

  /** Reverse edges lead from a node to exactly those of `done` that wait for it, once each. */
  ghost predicate ReverseEdges(D: Relation, edgesFrom: map<ID, seq<ID>>, done: set<ID>) {
    forall r :: ReverseAt(D, edgesFrom, done, r)
  }

  /** edgesFrom' is edgesFrom with `id` added to the list of every member of `refs`. */
  ghost predicate AddedTo(edgesFrom: map<ID, seq<ID>>, edgesFrom': map<ID, seq<ID>>, refs: set<ID>, id: ID) {
    forall r :: ChildList(edgesFrom', r) == ChildList(edgesFrom, r) + (if r in refs then [id] else [])
  }

  lemma AddedAt(edgesFrom: map<ID, seq<ID>>, edgesFrom': map<ID, seq<ID>>, refs: set<ID>, id: ID, r: ID)
    requires AddedTo(edgesFrom, edgesFrom', refs, id)
    ensures ChildList(edgesFrom', r) == ChildList(edgesFrom, r) + (if r in refs then [id] else [])
  {
  }

  lemma ReverseNext(D: Relation, cs: seq<ID>, cs': seq<ID>, edgesFrom: map<ID, seq<ID>>, edgesFrom': map<ID, seq<ID>>,
                    done: set<ID>, id: ID, r: ID)
    requires cs == ChildList(edgesFrom, r) && cs' == ChildList(edgesFrom', r)
    requires id in D && id !in done && ReverseAt(D, edgesFrom, done, r)
    requires cs' == cs + (if r in D[id] then [id] else [])
    ensures ReverseAt(D, edgesFrom', done + {id}, r)
  {
    hide ChildList;
    assert id !in cs;
  }

  lemma ReverseExtend(D: Relation, edgesFrom: map<ID, seq<ID>>, edgesFrom': map<ID, seq<ID>>, done: set<ID>, id: ID)
    requires id in D && id !in done && ReverseEdges(D, edgesFrom, done)
    requires AddedTo(edgesFrom, edgesFrom', D[id], id)
    ensures ReverseEdges(D, edgesFrom', done + {id})
  {
    hide AddedTo;
    forall r ensures ReverseAt(D, edgesFrom', done + {id}, r) {
      assert ReverseAt(D, edgesFrom, done, r);
      AddedAt(edgesFrom, edgesFrom', D[id], id, r);
      ReverseNext(D, ChildList(edgesFrom, r), ChildList(edgesFrom', r), edgesFrom, edgesFrom', done, id, r);
    }
  }

  /** after is before except that `id` is counted `n`. */
  ghost predicate CountedAt(before: map<ID, int>, after: map<ID, int>, id: ID, n: int) {
    && id in after && after[id] == n && after.Keys == before.Keys
    && forall x :: x in before && x != id ==> after[x] == before[x]
  }

  lemma CountOne(start: map<ID, int>, before: map<ID, int>, id: ID, n: int)
    requires CountedAt(start, before, id, n)
    ensures CountedAt(start, before[id := before[id] + 1], id, n + 1)
  {
  }

  lemma AddOne(start: map<ID, seq<ID>>, before: map<ID, seq<ID>>, refs: set<ID>, r: ID, id: ID)
    requires AddedTo(start, before, refs, id) && r !in refs
    ensures AddedTo(start, AddChild(before, r, id), refs + {r}, id)
  {
  }

  /** How far the references of `id` have been counted, from the tables `inDegree` and `edgesFrom`. */
  ghost predicate Counted(seen: set<ID>, id: ID, inDegree: map<ID, int>, edgesFrom: map<ID, seq<ID>>,
                          inDegree': map<ID, int>, edgesFrom': map<ID, seq<ID>>)
  {
    CountedAt(inDegree, inDegree', id, |seen|) && AddedTo(edgesFrom, edgesFrom', seen, id)
  }

  method AddReference(ref: ID, id: ID, seen: set<ID>, inDegree: map<ID, int>, edgesFrom: map<ID, seq<ID>>,
                      ghost inDegree0: map<ID, int>, ghost edgesFrom0: map<ID, seq<ID>>)
    returns (inDegree': map<ID, int>, edgesFrom': map<ID, seq<ID>>)
    requires Counted(seen, id, inDegree0, edgesFrom0, inDegree, edgesFrom) && ref !in seen
    ensures Counted(seen + {ref}, id, inDegree0, edgesFrom0, inDegree', edgesFrom')
  {
    inDegree' := inDegree[id := inDegree[id] + 1];
    edgesFrom' := edgesFrom[ref := (if ref in edgesFrom then edgesFrom[ref] else []) + [id]];
    CountOne(inDegree0, inDegree, id, |seen|);
    AddOne(edgesFrom0, edgesFrom, seen, ref, id);
  }

  lemma NoneCounted(id: ID, inDegree: map<ID, int>, edgesFrom: map<ID, seq<ID>>)
    requires id in inDegree && inDegree[id] == 0
    ensures Counted({}, id, inDegree, edgesFrom, inDegree, edgesFrom)
  {
  }

  method AddReferences(m: map<ID, Node>, n: Node, inDegree: map<ID, int>, edgesFrom: map<ID, seq<ID>>)
    returns (inDegree': map<ID, int>, edgesFrom': map<ID, seq<ID>>)
    requires n.id in inDegree && inDegree[n.id] == 0
    ensures Counted(Deps(m, n), n.id, inDegree, edgesFrom, inDegree', edgesFrom')
  {
    hide Counted, InScope, DependencyIDs;
    var refs := CollectDependencies(n.edges);
    var seen: set<ID> := {};
    inDegree', edgesFrom' := inDegree, edgesFrom;
    NoneCounted(n.id, inDegree, edgesFrom);
    InScopeNext(m, refs, 0);
    for i := 0 to |refs|
      invariant seen == InScope(m, refs, i)
      invariant Counted(seen, n.id, inDegree, edgesFrom, inDegree', edgesFrom')
    {
      var ref := refs[i];
      InScopeNext(m, refs, i + 1);
      if ref in m {
        if ref in seen {
          assert seen == seen + {ref};
        } else {
          inDegree', edgesFrom' := AddReference(ref, n.id, seen, inDegree', edgesFrom', inDegree, edgesFrom);
          seen := seen + {ref};
        }
      }
    }
  }

  ghost predicate DegreesOf(D: Relation, inDegree: map<ID, int>, done: set<ID>) {
    inDegree.Keys == D.Keys && forall id :: id in D ==> inDegree[id] == if id in done then |D[id]| else 0
  }

  lemma DegreesExtend(D: Relation, before: map<ID, int>, after: map<ID, int>, done: set<ID>, id: ID)
    requires DegreesOf(D, before, done) && id in D && CountedAt(before, after, id, |D[id]|)
    ensures DegreesOf(D, after, done + {id})
  {
  }

  method BuildDegrees(m: map<ID, Node>) returns (inDegree: map<ID, int>, edgesFrom: map<ID, seq<ID>>)
    requires Keyed(m)
    ensures DegreesOf(DepMap(m), inDegree, m.Keys)
    ensures ReverseEdges(DepMap(m), edgesFrom, m.Keys)
  {
    inDegree := map id | id in m :: 0;
    edgesFrom := map[];
    var todo := m.Keys;
    ghost var D := DepMap(m);
    assert m.Keys - todo == {};
    assert ReverseEdges(D, edgesFrom, {}) by {
      assert forall r :: ReverseAt(D, edgesFrom, {}, r);
    }
    while todo != {}
      invariant todo <= m.Keys
      invariant DegreesOf(D, inDegree, m.Keys - todo)
      invariant ReverseEdges(D, edgesFrom, m.Keys - todo)
      decreases todo
    {
      var id :| id in todo;
      inDegree, edgesFrom := CountNode(m, id, inDegree, edgesFrom, m.Keys - todo);
      assert m.Keys - (todo - {id}) == (m.Keys - todo) + {id};
      todo := todo - {id};
    }
    assert m.Keys - todo == m.Keys;
  }

  method CountNode(m: map<ID, Node>, id: ID, inDegree: map<ID, int>, edgesFrom: map<ID, seq<ID>>, ghost done: set<ID>)
    returns (inDegree': map<ID, int>, edgesFrom': map<ID, seq<ID>>)
    requires id in m && m[id].id == id && id !in done
    requires DegreesOf(DepMap(m), inDegree, done) && ReverseEdges(DepMap(m), edgesFrom, done)
    ensures DegreesOf(DepMap(m), inDegree', done + {id}) && ReverseEdges(DepMap(m), edgesFrom', done + {id})
  {
    inDegree', edgesFrom' := AddReferences(m, m[id], inDegree, edgesFrom);
    assert DepMap(m)[id] == Deps(m, m[id]);
    DegreesExtend(DepMap(m), inDegree, inDegree', done, id);
    ReverseExtend(DepMap(m), edgesFrom, edgesFrom', done, id);
  }

  // ----- sorting by timestamp -----

  ghost predicate TimeOrdered(time: map<ID, Time>, s: seq<ID>) {
    && (forall x :: x in s ==> x in time)
    && forall i, j :: 0 <= i < j < |s| ==> time[s[i]] <= time[s[j]]
  }

  /** A sort that promises nothing about equal timestamps. */
  method SortByTime(m: map<ID, Node>, ids: seq<ID>) returns (s: seq<ID>)
    requires Distinct(ids) && forall x :: x in ids ==> x in m
    ensures Distinct(s) && TimeOrdered(Times(m), s) && forall x :: x in s <==> x in ids
  {
    s := [];
    var rest := set x | x in ids;
    while rest != {}
      invariant Distinct(s) && TimeOrdered(Times(m), s)
      invariant forall x :: x in ids <==> x in s || x in rest
      invariant forall x :: x in rest ==> x !in s && x in m
      invariant forall x, y :: x in s && y in rest ==> m[x].timestamp <= m[y].timestamp
      decreases rest
    {
      EarliestExists(m, rest);
      var x :| x in rest && forall y :: y in rest ==> m[x].timestamp <= m[y].timestamp;
      s, rest := s + [x], rest - {x};
    }
  }

  lemma {:induction false} EarliestExists(m: map<ID, Node>, rest: set<ID>)
    requires rest != {} && rest <= m.Keys
    ensures exists x :: x in rest && forall y :: y in rest ==> m[x].timestamp <= m[y].timestamp
  {
    var x :| x in rest;
    if rest != {x} {
      EarliestExists(m, rest - {x});
      var z :| z in rest - {x} && forall y :: y in rest - {x} ==> m[z].timestamp <= m[y].timestamp;
      var best := if m[x].timestamp <= m[z].timestamp then x else z;
      assert forall y :: y in rest ==> y == x || y in rest - {x};
      assert best in rest && forall y :: y in rest ==> m[best].timestamp <= m[y].timestamp;
    }
  }

  // ----- one round of the main loop -----

  ghost function Waiting(deps: set<ID>, out: seq<ID>): set<ID> {
    set d | d in deps && d !in out
  }

  /** Every item counts the dependencies not yet emitted. */
  ghost predicate Counts(D: Relation, inDegree: map<ID, int>, out: seq<ID>) {
    inDegree.Keys == D.Keys && forall id :: id in D ==> inDegree[id] == |Waiting(D[id], out)|
  }

  ghost predicate Ready(D: Relation, out: seq<ID>, id: ID)
    requires id in D
  {
    forall d :: d in D[id] ==> d in out
  }

  ghost predicate InIffReady(D: Relation, all: seq<ID>, out: seq<ID>, id: ID)
    requires id in D
  {
    id in all <==> Ready(D, out, id)
  }

  /** Exactly the items with nothing left to wait for are emitted or queued. */
  ghost predicate QueuedIfReady(D: Relation, all: seq<ID>, out: seq<ID>) {
    && (forall x :: x in all ==> x in D)
    && forall id {:trigger InIffReady(D, all, out, id)} :: id in D ==> InIffReady(D, all, out, id)
  }

  ghost predicate Emitted(D: Relation, out: seq<ID>) {
    forall k :: 0 <= k < |out| ==> DepsEarlier(D, out, k)
  }

  ghost predicate KahnInv(D: Relation, time: map<ID, Time>, inDegree: map<ID, int>, out: seq<ID>, queue: seq<ID>) {
    && Closed(D) && time.Keys == D.Keys
    && Distinct(out + queue)
    && Counts(D, inDegree, out)
    && QueuedIfReady(D, out + queue, out)
    && Emitted(D, out)
    && Layered(D, time, out + queue)
  }

  lemma WaitingNext(deps: set<ID>, out: seq<ID>, id: ID)
    requires id !in out
    ensures Waiting(deps, out + [id]) == Waiting(deps, out) - {id}
    ensures |Waiting(deps, out + [id])| == |Waiting(deps, out)| - (if id in deps then 1 else 0)
  {
    assert Waiting(deps, out + [id]) == Waiting(deps, out) - {id};
    if id in deps {
      assert Waiting(deps, out) == Waiting(deps, out + [id]) + {id};
    } else {
      assert Waiting(deps, out) == Waiting(deps, out + [id]);
    }
  }

  lemma NothingWaiting(deps: set<ID>, out: seq<ID>)
    ensures |Waiting(deps, out)| == 0 <==> forall d :: d in deps ==> d in out
  {
    if |Waiting(deps, out)| != 0 {
      var d :| d in Waiting(deps, out);
    } else {
      assert Waiting(deps, out) == {};
      forall d | d in deps ensures d in out {
        assert d !in Waiting(deps, out);
      }
    }
  }

  /** What emitting `id` has released: the items whose last open dependency it was. */
  ghost predicate ReleasedItems(D: Relation, time: map<ID, Time>, inDegree: map<ID, int>, id: ID, released: seq<ID>) {
    && Distinct(released) && TimeOrdered(time, released)
    && forall c :: c in released <==> c in D && id in D[c] && c in inDegree && inDegree[c] == 1
  }

  ghost predicate Decremented(D: Relation, before: map<ID, int>, after: map<ID, int>, id: ID) {
    && before.Keys == D.Keys && after.Keys == D.Keys
    && forall c :: c in D ==> after[c] == before[c] - (if id in D[c] then 1 else 0)
  }

  lemma CountsNext(D: Relation, inDegree: map<ID, int>, inDegree': map<ID, int>, out: seq<ID>, id: ID)
    requires Counts(D, inDegree, out) && Decremented(D, inDegree, inDegree', id) && id !in out
    ensures Counts(D, inDegree', out + [id])
  {
    forall c | c in D ensures inDegree'[c] == |Waiting(D[c], out + [id])| {
      WaitingNext(D[c], out, id);
    }
  }

  /** An item is released exactly when emitting `id` leaves it nothing to wait for. */
  lemma ReleasedWhenReady(D: Relation, time: map<ID, Time>, inDegree: map<ID, int>, out: seq<ID>, id: ID,
                          released: seq<ID>, c: ID)
    requires Counts(D, inDegree, out) && ReleasedItems(D, time, inDegree, id, released) && id !in out && c in D
    ensures c in released <==> id in D[c] && forall d :: d in D[c] ==> d in out + [id]
  {
    WaitingNext(D[c], out, id);
    NothingWaiting(D[c], out + [id]);
  }

  lemma MiddleIsNew(out: seq<ID>, id: ID, rest: seq<ID>)
    requires Distinct(out + [id] + rest)
    ensures id !in out && id in out + [id] + rest
  {
    var all := out + [id] + rest;
    assert all[|out|] == id;
    forall k | 0 <= k < |out| ensures out[k] != id {
      assert all[k] == out[k];
    }
  }

  lemma QueuedNext(D: Relation, time: map<ID, Time>, inDegree: map<ID, int>, out: seq<ID>, id: ID, rest: seq<ID>,
                   released: seq<ID>)
    requires Counts(D, inDegree, out) && ReleasedItems(D, time, inDegree, id, released)
    requires Distinct(out + [id] + rest) && QueuedIfReady(D, out + [id] + rest, out)
    ensures QueuedIfReady(D, out + [id] + rest + released, out + [id])
    ensures Distinct(out + [id] + rest + released)
  {
    var all := out + [id] + rest;
    MiddleIsNew(out, id, rest);
    forall c | c in D
      ensures InIffReady(D, all + released, out + [id], c)
      ensures c in all ==> c !in released
    {
      assert InIffReady(D, all, out, c);
      ReleasedWhenReady(D, time, inDegree, out, id, released, c);
      assert id !in D[c] ==> (Ready(D, out + [id], c) <==> Ready(D, out, c));
    }
  }

  lemma OldReleasers(D: Relation, out: seq<ID>, back: seq<ID>, released: seq<ID>, x: ID)
    requires Distinct(out + back + released) && x in D && forall d :: d in D[x] ==> d in out
    ensures LastDep(out + back + released, D[x]) == LastDep(out + back, D[x]) < |out|
  {
    assert out + back + released == out + (back + released);
    assert Distinct(out + back) by {
      assert forall i :: 0 <= i < |out + back| ==> (out + back)[i] == (out + back + released)[i];
    }
    ReleasedBefore(out, back, D[x]);
    ReleasedBefore(out, back + released, D[x]);
  }

  lemma NewReleasers(D: Relation, out: seq<ID>, id: ID, rest: seq<ID>, released: seq<ID>, c: ID)
    requires Distinct(out + [id] + rest + released) && c in D && id in D[c]
    requires forall d :: d in D[c] ==> d in out + [id]
    ensures LastDep(out + [id] + rest + released, D[c]) == |out|
  {
    assert (out + [id]) + (rest + released) == out + [id] + rest + released;
    ReleasedBefore(out + [id], rest + released, D[c]);
  }

  /** Released items go behind everything queued, in timestamp order. */
  lemma LayeredNext(D: Relation, time: map<ID, Time>, out: seq<ID>, id: ID, rest: seq<ID>, released: seq<ID>)
    requires var all := out + [id] + rest;
      Distinct(all + released) && Layered(D, time, all) && forall x :: x in all ==> x in D && forall d :: d in D[x] ==>
        d in out
    requires TimeOrdered(time, released)
    requires forall c :: c in released ==> c in D && id in D[c] && forall d :: d in D[c] ==> d in out + [id]
    ensures Layered(D, time, out + [id] + rest + released)
  {
    var all := out + [id] + rest;
    var longer := all + released;
    assert out + ([id] + rest) == all;
    forall x | x in all ensures LastDep(longer, D[x]) == LastDep(all, D[x]) < |out| {
      OldReleasers(D, out, [id] + rest, released, x);
    }
    forall c | c in released ensures LastDep(longer, D[c]) == |out| {
      NewReleasers(D, out, id, rest, released, c);
    }
    LayeredFrom(D, time, all, released, |out|);
  }

  lemma LayeredFrom(D: Relation, time: map<ID, Time>, all: seq<ID>, released: seq<ID>, k: int)
    requires Layered(D, time, all) && TimeOrdered(time, released) && forall c :: c in released ==> c in D
    requires forall x :: x in all ==> LastDep(all + released, D[x]) == LastDep(all, D[x]) < k
    requires forall c :: c in released ==> LastDep(all + released, D[c]) == k
    ensures Layered(D, time, all + released)
  {
    var longer := all + released;
    forall i, j | 0 <= i < j < |longer| ensures NoLater(D, time, longer, longer[i], longer[j]) {
      if j < |all| {
        assert NoLater(D, time, all, all[i], all[j]);
      } else {
        assert longer[j] in released;
      }
    }
  }

  lemma ReleasedBefore(front: seq<ID>, back: seq<ID>, deps: set<ID>)
    requires Distinct(front + back) && forall d :: d in deps ==> d in front
    ensures LastDep(front + back, deps) == LastDep(front, deps)
  {
    assert (front + back)[..|front|] == front;
    ReleasedInPrefix(front + back, |front|, deps);
  }

  lemma EmittedNext(D: Relation, out: seq<ID>, id: ID)
    requires Emitted(D, out) && id in D && forall d :: d in D[id] ==> d in out
    ensures Emitted(D, out + [id])
  {
    var out' := out + [id];
    forall k | 0 <= k < |out'| ensures DepsEarlier(D, out', k) {
      if k < |out| {
        assert DepsEarlier(D, out, k);
        assert out'[..k] == out[..k];
      } else {
        assert out'[..k] == out;
      }
    }
  }

  lemma KahnStep(D: Relation, time: map<ID, Time>, inDegree: map<ID, int>, inDegree': map<ID, int>,
                 out: seq<ID>, id: ID, rest: seq<ID>, released: seq<ID>)
    requires KahnInv(D, time, inDegree, out, [id] + rest)
    requires Decremented(D, inDegree, inDegree', id) && ReleasedItems(D, time, inDegree, id, released)
    ensures KahnInv(D, time, inDegree', out + [id], rest + released)
  {
    var all := out + [id] + rest;
    assert out + ([id] + rest) == all;
    assert (out + [id]) + (rest + released) == all + released;
    MiddleIsNew(out, id, rest);
    assert InIffReady(D, all, out, id);
    CountsNext(D, inDegree, inDegree', out, id);
    EmittedNext(D, out, id);
    QueuedNext(D, time, inDegree, out, id, rest, released);
    KahnLayers(D, time, inDegree, out, id, rest, released);
  }

  lemma KahnLayers(D: Relation, time: map<ID, Time>, inDegree: map<ID, int>, out: seq<ID>, id: ID, rest: seq<ID>,
                   released: seq<ID>)
    requires Counts(D, inDegree, out) && ReleasedItems(D, time, inDegree, id, released)
    requires Distinct(out + [id] + rest) && QueuedIfReady(D, out + [id] + rest, out)
    requires Layered(D, time, out + [id] + rest)
    ensures Layered(D, time, out + [id] + rest + released)
  {
    MiddleIsNew(out, id, rest);
    forall c | c in released ensures c in D && id in D[c] && forall d :: d in D[c] ==> d in out + [id] {
      ReleasedWhenReady(D, time, inDegree, out, id, released, c);
    }
    QueuedNext(D, time, inDegree, out, id, rest, released);
    forall x | x in out + [id] + rest ensures x in D && forall d :: d in D[x] ==> d in out {
      assert InIffReady(D, out + [id] + rest, out, x);
    }
    LayeredNext(D, time, out, id, rest, released);
  }

  // ----- the loops -----

  /** The items nobody has to wait for, in arbitrary order. */
  method CollectRoots(inDegree: map<ID, int>) returns (queue: seq<ID>)
    ensures Distinct(queue) && forall id :: id in queue <==> id in inDegree && inDegree[id] == 0
  {
    queue := [];
    var todo := inDegree.Keys;
    while todo != {}
      invariant todo <= inDegree.Keys && Distinct(queue)
      invariant forall id :: id in queue <==> id in inDegree && id !in todo && inDegree[id] == 0
      decreases todo
    {
      var id :| id in todo;
      todo := todo - {id};
      if inDegree[id] == 0 {
        queue := queue + [id];
      }
    }
  }

  lemma NoDeps(D: Relation, s: seq<ID>, id: ID)
    requires id in D && D[id] == {}
    ensures LastDep(s, D[id]) == -1
  {
  }

  lemma RootsLayered(D: Relation, time: map<ID, Time>, queue: seq<ID>)
    requires TimeOrdered(time, queue) && forall id :: id in queue ==> id in D && D[id] == {}
    ensures Layered(D, time, queue)
  {
    forall i, j | 0 <= i < j < |queue| ensures NoLater(D, time, queue, queue[i], queue[j]) {
      NoDeps(D, queue, queue[i]);
      NoDeps(D, queue, queue[j]);
    }
  }

  lemma KahnStart(D: Relation, time: map<ID, Time>, inDegree: map<ID, int>, queue: seq<ID>)
    requires Closed(D) && time.Keys == D.Keys && DegreesOf(D, inDegree, D.Keys)
    requires Distinct(queue) && TimeOrdered(time, queue)
      && forall id :: id in queue <==> id in inDegree && inDegree[id] == 0
    ensures KahnInv(D, time, inDegree, [], queue)
  {
    assert [] + queue == queue;
    forall id | id in D ensures inDegree[id] == |Waiting(D[id], [])| {
      assert Waiting(D[id], []) == D[id];
    }
    forall id | id in D ensures id in queue <==> D[id] == {} {
      assert |D[id]| == 0 <==> D[id] == {};
    }
    forall id | id in D ensures InIffReady(D, queue, [], id) {
      if D[id] != {} { var d :| d in D[id]; }
    }
    RootsLayered(D, time, queue);
  }

  /** Progress of a release: the first i dependents have lost one open dependency each. */
  ghost predicate Lowered(time: map<ID, Time>, below: seq<ID>, i: nat, inDegree: map<ID, int>, inDegree': map<ID, int>,
                          released: seq<ID>)
    requires i <= |below|
  {
    && inDegree'.Keys == inDegree.Keys
    && (forall c :: c in inDegree ==> inDegree'[c] == inDegree[c] - (if c in below[..i] then 1 else 0))
    && (forall c :: c in released <==> c in below[..i] && c in inDegree && inDegree[c] == 1)
    && Distinct(released) && TimeOrdered(time, released)
  }

  lemma LoweredNext(time: map<ID, Time>, below: seq<ID>, i: nat, inDegree: map<ID, int>, inDegree': map<ID, int>,
                    released: seq<ID>)
    requires i < |below| && Lowered(time, below, i, inDegree, inDegree', released)
    requires Distinct(below) && TimeOrdered(time, below) && forall c :: c in below ==> c in inDegree
    ensures below[i] in inDegree'
    ensures var lower := inDegree'[below[i] := inDegree'[below[i]] - 1];
      Lowered(time, below, i + 1, inDegree, lower, if lower[below[i]] == 0 then released + [below[i]] else released)
  {
    var c := below[i];
    assert c in below;
    assert below[..i + 1] == below[..i] + [c];
    assert c !in below[..i];
    forall x | x in released ensures time[x] <= time[c] {
      var k :| 0 <= k < i && below[..i][k] == x;
      assert below[k] == x;
    }
  }

  /** Emitting one item: its dependents, oldest first, lose one open dependency each. */
  method Release(m: map<ID, Node>, inDegree: map<ID, int>, edgesFrom: map<ID, seq<ID>>, queue: seq<ID>, id: ID)
    returns (inDegree': map<ID, int>, queue': seq<ID>, ghost released: seq<ID>)
    requires inDegree.Keys == m.Keys && id in m && ReverseEdges(DepMap(m), edgesFrom, m.Keys)
    ensures queue' == queue + released
    ensures Decremented(DepMap(m), inDegree, inDegree', id)
    ensures ReleasedItems(DepMap(m), Times(m), inDegree, id, released)
  {
    ghost var D := DepMap(m);
    assert ReverseAt(D, edgesFrom, m.Keys, id);
    var below := SortByTime(m, if id in edgesFrom then edgesFrom[id] else []);
    assert forall c :: c in below <==> c in D && id in D[c];
    inDegree', queue', released := inDegree, queue, [];
    NoneLowered(Times(m), below, inDegree);
    assert queue' == queue + released;
    hide Lowered, DepMap, ReverseEdges, Times;
    for i := 0 to |below|
      invariant queue' == queue + released
      invariant Lowered(Times(m), below, i, inDegree, inDegree', released)
    {
      LoweredNext(Times(m), below, i, inDegree, inDegree', released);
      assert below[i] in inDegree';
      inDegree' := inDegree'[below[i] := inDegree'[below[i]] - 1];
      if inDegree'[below[i]] == 0 {
        PushBoth(queue, released, below[i]);
        queue', released := queue' + [below[i]], released + [below[i]];
      }
    }
    AllLowered(D, Times(m), below, inDegree, inDegree', released, id);
  }

  lemma PushBoth(queue: seq<ID>, released: seq<ID>, c: ID)
    ensures (queue + released) + [c] == queue + (released + [c])
  {
  }

  lemma NoneLowered(time: map<ID, Time>, below: seq<ID>, inDegree: map<ID, int>)
    ensures Lowered(time, below, 0, inDegree, inDegree, [])
  {
  }

  lemma AllLowered(D: Relation, time: map<ID, Time>, below: seq<ID>, inDegree: map<ID, int>, inDegree': map<ID, int>,
                   released: seq<ID>, id: ID)
    requires Lowered(time, below, |below|, inDegree, inDegree', released)
    requires inDegree.Keys == D.Keys && forall c :: c in below <==> c in D && id in D[c]
    ensures Decremented(D, inDegree, inDegree', id) && ReleasedItems(D, time, inDegree, id, released)
  {
    assert below[..|below|] == below;
  }

  ghost function IDs(ns: seq<Node>): (ids: seq<ID>)
    ensures |ids| == |ns| && forall i :: 0 <= i < |ns| ==> ids[i] == ns[i].id
  {
    seq(|ns|, i requires 0 <= i < |ns| => ns[i].id)
  }

  /** ns lists the stored nodes in a first-in first-out topological order. */
  ghost predicate SortedNodes(m: map<ID, Node>, ns: seq<Node>) {
    && FifoOrder(DepMap(m), Times(m), IDs(ns))
    && forall n :: n in ns ==> n.id in m && m[n.id] == n
  }

  /** Each stored target of a parent or branch_from edge stands before the node with that edge. */
  ghost predicate TargetsFirst(m: map<ID, Node>, ns: seq<Node>) {
    forall i, e :: 0 <= i < |ns| && e in ns[i].edges && e.nodeID in m && (e.kind == PARENT || e.kind == BRANCH_FROM) ==>
      exists j :: 0 <= j < i && ns[j].id == e.nodeID
  }

  /** Nodes that wait for the same stored targets, as two roots or two siblings do, come in timestamp order. */
  ghost predicate OlderFirst(m: map<ID, Node>, ns: seq<Node>) {
    forall i, j :: 0 <= i < j < |ns| && SameWait(m, ns[i], ns[j]) ==> ns[i].timestamp <= ns[j].timestamp
  }

  ghost predicate SameWait(m: map<ID, Node>, a: Node, b: Node) {
    forall d {:trigger Named(a, d)} :: d in m ==> (Named(a, d) <==> Named(b, d))
  }

  /** n has a parent or branch_from edge to d. */
  ghost predicate Named(n: Node, d: ID) {
    exists e :: e in n.edges && e.nodeID == d && (e.kind == PARENT || e.kind == BRANCH_FROM)
  }

  lemma SameWaitSameDeps(m: map<ID, Node>, a: Node, b: Node)
    requires a.id in m && m[a.id] == a && b.id in m && m[b.id] == b && SameWait(m, a, b)
    ensures DepMap(m)[a.id] == DepMap(m)[b.id]
  {
    hide DepMap;
    forall d ensures d in DepMap(m)[a.id] <==> d in DepMap(m)[b.id] {
      WaitsForTargets(m, a.id, d);
      WaitsForTargets(m, b.id, d);
      assert d in m ==> (Named(a, d) <==> Named(b, d));
    }
  }

  lemma SortPutsOlderFirst(m: map<ID, Node>, ns: seq<Node>)
    requires SortedNodes(m, ns)
    ensures OlderFirst(m, ns)
  {
    hide DepMap, DepsEarlier, SameWait;
    forall i, j | 0 <= i < j < |ns| && SameWait(m, ns[i], ns[j]) ensures ns[i].timestamp <= ns[j].timestamp {
      assert ns[i] in ns && ns[j] in ns && IDs(ns)[i] == ns[i].id && IDs(ns)[j] == ns[j].id;
      assert NoLater(DepMap(m), Times(m), IDs(ns), IDs(ns)[i], IDs(ns)[j]);
      SameWaitSameDeps(m, ns[i], ns[j]);
    }
  }

  lemma SortPutsTargetsFirst(m: map<ID, Node>, ns: seq<Node>)
    requires SortedNodes(m, ns)
    ensures TargetsFirst(m, ns)
  {
    hide DepMap, Layered;
    forall i, e | 0 <= i < |ns| && e in ns[i].edges && e.nodeID in m && (e.kind == PARENT || e.kind == BRANCH_FROM)
      ensures exists j :: 0 <= j < i && ns[j].id == e.nodeID
    {
      assert ns[i] in ns && IDs(ns)[i] == ns[i].id;
      WaitsForTargets(m, ns[i].id, e.nodeID);
      assert DepsEarlier(DepMap(m), IDs(ns), i);
      var j :| 0 <= j < i && IDs(ns)[..i][j] == e.nodeID;
    }
  }

  lemma DepMapClosed(m: map<ID, Node>)
    ensures Closed(DepMap(m))
  {
    forall id | id in m ensures DepMap(m)[id] <= m.Keys {
      var refs := DependencyIDs(m[id].edges);
      forall r | r in DepMap(m)[id] ensures r in m {
        InScopeMembers(m, refs, |refs|, r);
      }
    }
  }

  lemma KahnComplete(D: Relation, time: map<ID, Time>, inDegree: map<ID, int>, out: seq<ID>)
    requires KahnInv(D, time, inDegree, out, []) && |out| == |D|
    ensures FifoOrder(D, time, out)
  {
    assert out + [] == out;
    DistinctFits(out, D.Keys);
  }

  /** Once the queue is empty, whatever was not emitted waits for something else not emitted. */
  lemma LeftoverWaits(D: Relation, out: seq<ID>, S: set<ID>, id: ID)
    requires Closed(D) && QueuedIfReady(D, out, out) && id in S
    requires forall x :: x in S <==> x in D && x !in out
    ensures WaitsInside(D, S, id)
  {
    assert InIffReady(D, out, out, id);
    var d :| d in D[id] && d !in out;
    assert d in D;
  }

  ghost predicate WaitsForLeftover(D: Relation, out: seq<ID>, id: ID) {
    id in D && exists d :: d in D[id] && d in D && d !in out
  }

  /**
   As much as can be emitted has been, each item once and after its dependencies; whatever is left waits for
   something left.
   */
  ghost predicate Stalled(D: Relation, out: seq<ID>) {
    Distinct(out) && Emitted(D, out)
    && forall id {:trigger WaitsForLeftover(D, out, id)} :: id in D && id !in out ==> WaitsForLeftover(D, out, id)
  }

  /** A drained queue leaves the sort stalled. */
  lemma KahnStalls(D: Relation, time: map<ID, Time>, inDegree: map<ID, int>, out: seq<ID>)
    requires KahnInv(D, time, inDegree, out, [])
    ensures Stalled(D, out)
  {
    hide Layered, Counts, DepsEarlier;
    assert out + [] == out;
    var S := set id | id in D && id !in out;
    forall id | id in D && id !in out ensures WaitsForLeftover(D, out, id) { LeftoverWaits(D, out, S, id); }
  }

  lemma StalledEmits(D: Relation, out: seq<ID>)
    requires Stalled(D, out)
    ensures forall x :: x in out ==> x in D
  {
    forall x | x in out ensures x in D {
      var k :| 0 <= k < |out| && out[k] == x;
      assert DepsEarlier(D, out, k);
    }
  }

  lemma LeftoverInside(D: Relation, out: seq<ID>, S: set<ID>, id: ID)
    requires WaitsForLeftover(D, out, id) && forall x :: x in S <==> x in D && x !in out
    ensures WaitsInside(D, S, id)
  {
  }

  /** Stalled before the end, the sort has left a cycle. */
  lemma StalledLeavesCycle(D: Relation, out: seq<ID>) returns (c: seq<ID>)
    requires Stalled(D, out) && |out| != |D|
    ensures IsCycle(D, c) && forall x :: x in c ==> x !in out
  {
    hide Emitted, IsCycle, WaitsInside, WaitsForLeftover;
    var S := set id | id in D && id !in out;
    StalledEmits(D, out);
    LeftoverExists(D, out, S);
    forall id | id in S ensures WaitsInside(D, S, id) {
      assert WaitsForLeftover(D, out, id);
      LeftoverInside(D, out, S, id);
    }
    c := StuckSetHasCycle(D, S);
  }

  lemma KahnStuck(D: Relation, time: map<ID, Time>, inDegree: map<ID, int>, out: seq<ID>)
    requires KahnInv(D, time, inDegree, out, []) && |out| != |D|
    ensures exists c :: IsCycle(D, c) && forall x :: x in c ==> x !in out
    ensures !Acyclic(D) && Stalled(D, out)
  {
    hide KahnInv, Stalled, IsCycle;
    KahnStalls(D, time, inDegree, out);
    var c := StalledLeavesCycle(D, out);
  }

  lemma LeftoverExists(D: Relation, out: seq<ID>, S: set<ID>)
    requires Distinct(out) && |out| != |D| && forall x :: x in out ==> x in D
    requires forall x :: x in S <==> x in D && x !in out
    ensures S != {}
  {
    DistinctFits(out, D.Keys);
    if S == {} {
      assert forall x :: x in D.Keys ==> x !in S;
      DistinctCovers(out, D.Keys);
    }
  }

  /** One round of the main loop. */
  method EmitNext(m: map<ID, Node>, inDegree: map<ID, int>, edgesFrom: map<ID, seq<ID>>, queue: seq<ID>,
                  ghost emitted: seq<ID>)
    returns (id: ID, inDegree': map<ID, int>, queue': seq<ID>)
    requires |queue| > 0 && KahnInv(DepMap(m), Times(m), inDegree, emitted, queue)
    requires ReverseEdges(DepMap(m), edgesFrom, m.Keys)
    ensures id in m && KahnInv(DepMap(m), Times(m), inDegree', emitted + [id], queue')
  {
    id := queue[0];
    assert queue == [id] + queue[1..];
    assert id in emitted + queue;
    ghost var released;
    inDegree', queue', released := Release(m, inDegree, edgesFrom, queue[1..], id);
    KahnStep(DepMap(m), Times(m), inDegree, inDegree', emitted, id, queue[1..], released);
  }

  /** ids[i] names the stored node ns[i]. */
  ghost predicate Names(m: map<ID, Node>, ids: seq<ID>, ns: seq<Node>) {
    |ids| == |ns| && forall i :: 0 <= i < |ns| ==> ids[i] in m && ns[i] == m[ids[i]]
  }

  lemma NamesNext(m: map<ID, Node>, ids: seq<ID>, ns: seq<Node>, id: ID)
    requires Names(m, ids, ns) && id in m
    ensures Names(m, ids + [id], ns + [m[id]])
  {
  }

  lemma NamesAreIDs(m: map<ID, Node>, ids: seq<ID>, ns: seq<Node>)
    requires Keyed(m) && Names(m, ids, ns)
    ensures ids == IDs(ns) && forall n :: n in ns ==> n.id in m && m[n.id] == n
  {
  }

  lemma EmittedFits(D: Relation, out: seq<ID>, queue: seq<ID>)
    requires Distinct(out + queue) && forall x :: x in out + queue ==> x in D
    ensures |out + queue| <= |D|
  {
    DistinctFits(out + queue, D.Keys);
  }

  lemma KahnFits(D: Relation, time: map<ID, Time>, inDegree: map<ID, int>, out: seq<ID>, queue: seq<ID>)
    requires KahnInv(D, time, inDegree, out, queue)
    ensures |out + queue| <= |D| && inDegree.Keys == D.Keys && time.Keys == D.Keys
  {
    EmittedFits(D, out, queue);
  }

  lemma SortedAre(m: map<ID, Node>, sorted: seq<Node>, emitted: seq<ID>)
    requires FifoOrder(DepMap(m), Times(m), emitted) && emitted == IDs(sorted)
    requires forall n :: n in sorted ==> n.id in m && m[n.id] == n
    ensures SortedNodes(m, sorted) && TargetsFirst(m, sorted) && OlderFirst(m, sorted)
  {
    hide FifoOrder, TargetsFirst, OlderFirst;
    SortPutsTargetsFirst(m, sorted);
    SortPutsOlderFirst(m, sorted);
  }

  /** `emitted` is what had been sorted when the queue ran dry. */
  method TopoSortNodes(m: map<ID, Node>) returns (r: Result<seq<Node>, Error>, ghost emitted: seq<ID>)
    requires Keyed(m)
    ensures r.Ok? <==> Acyclic(DepMap(m))
    ensures r.Ok? ==> SortedNodes(m, r.value) && emitted == IDs(r.value)
    ensures r.Ok? ==> TargetsFirst(m, r.value) && OlderFirst(m, r.value)
    ensures r.Err? ==> r.error == CycleDetected && Stalled(DepMap(m), emitted)
    ensures r.Err? ==> exists c :: IsCycle(DepMap(m), c) && forall x :: x in c ==> x !in emitted
  {
    hide TargetsFirst, OlderFirst, SortedNodes, KahnInv, Acyclic, IsCycle, Stalled, FifoOrder, DepMap;
    DepMapClosed(m);
    var inDegree, edgesFrom := BuildDegrees(m);
    var queue := CollectRoots(inDegree);
    queue := SortByTime(m, queue);
    KahnStart(DepMap(m), Times(m), inDegree, queue);
    var sorted: seq<Node> := [];
    emitted := [];
    while |queue| > 0
      invariant KahnInv(DepMap(m), Times(m), inDegree, emitted, queue)
      invariant Names(m, emitted, sorted)
      decreases |DepMap(m)| - |sorted|
    {
      KahnFits(DepMap(m), Times(m), inDegree, emitted, queue);
      var id;
      id, inDegree, queue := EmitNext(m, inDegree, edgesFrom, queue, emitted);
      NamesNext(m, emitted, sorted, id);
      sorted, emitted := sorted + [m[id]], emitted + [id];
    }
    NamesAreIDs(m, emitted, sorted);
    assert |DepMap(m)| == |DepMap(m).Keys| == |m|;
    if |sorted| != |m| {
      KahnStuck(DepMap(m), Times(m), inDegree, emitted);
      return Err(CycleDetected), emitted;
    }
    KahnComplete(DepMap(m), Times(m), inDegree, emitted);
    OrderedIsAcyclic(DepMap(m), emitted);
    SortedAre(m, sorted, emitted);
    r := Ok(sorted);
  }
}
