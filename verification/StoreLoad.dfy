/** Loading a graph or a lineage back from the Cayley store. */
module StoreLoad {
  import opened Types
  import opened Sequences
  import opened GraphInvariant
  import opened TopoOrder
  import opened TopoSort
  import opened Storage
  import opened SessionGraph
  import opened Quads
  import opened CayleyStore

  /** What one LoadGraph call reads before it sorts. */
  datatype Loaded = Loaded(session: Session, status: SessionStatus, headID: ID, reason: string, terminal: ID,
                           nodes: seq<Node>)

  ghost predicate EndRead(quads: set<Quad>, sid: ID, ld: Loaded) {
    if ld.status.StatusOpen? then ld.reason == "" && ld.terminal == NO_ID
    else
      exists er, en ::
        && First(quads, sid, PEndReason, er) && First(quads, sid, PEndNode, en)
        && ld.reason == ParseString(er) && ld.terminal == ID(ParseString(en))
  }

  ghost predicate LoadRead(quads: set<Quad>, sid: ID, ld: Loaded) {
    && SessionRead(quads, sid, ld.session, ld.status)
    && (exists h :: First(quads, sid, PHead, h) && ld.headID == ID(ParseString(h)))
    && EndRead(quads, sid, ld)
    && exists qs :: Lists(qs, In(quads, IRI(sid), PSession)) && NodesRead(quads, qs, ld.nodes)
  }

  /** l leads from a root to `id` along the first parents that `read` can return. */
  ghost predicate PathUp(read: (ID, Node) -> bool, id: ID, l: seq<Node>)
    decreases |l|
  {
    && l != [] && read(id, l[|l| - 1])
    && var parents := l[|l| - 1].Parents();
       if parents == [] then |l| == 1 else PathUp(read, parents[0], l[..|l| - 1])
  }

  ghost function Reader(quads: set<Quad>): (ID, Node) -> bool {
    (id, n) => NodeRead(quads, id, n)
  }

  /** l may be what GetLineage(id) returns. */
  ghost predicate StoreLineage(quads: set<Quad>, id: ID, l: seq<Node>) {
    PathUp(Reader(quads), id, l)
  }

  /** Any stored lineage of `from`, followed by `tail`, is one of `to`. */
  ghost predicate StoreLeadsOn(quads: set<Quad>, from: ID, to: ID, tail: seq<Node>) {
    forall l :: StoreLineage(quads, from, l) ==> StoreLineage(quads, to, l + tail)
  }

  lemma StoreLeadsOnStart(quads: set<Quad>, id: ID)
    ensures StoreLeadsOn(quads, id, id, [])
  {
    forall l | StoreLineage(quads, id, l) ensures StoreLineage(quads, id, l + []) { assert l + [] == l; }
  }

  lemma StoreLeadsOnUp(quads: set<Quad>, id: ID, n: Node, to: ID, tail: seq<Node>)
    requires NodeRead(quads, id, n) && n.Parents() != [] && StoreLeadsOn(quads, id, to, tail)
    ensures StoreLeadsOn(quads, n.Parents()[0], to, [n] + tail)
  {
    hide NodeRead;
    forall l | StoreLineage(quads, n.Parents()[0], l) ensures StoreLineage(quads, to, l + ([n] + tail)) {
      assert (l + [n])[..|l|] == l;
      assert StoreLineage(quads, id, l + [n]);
      assert l + ([n] + tail) == (l + [n]) + tail;
    }
  }

  lemma StoreLeadsToRoot(quads: set<Quad>, id: ID, n: Node, to: ID, tail: seq<Node>)
    requires NodeRead(quads, id, n) && n.Parents() == [] && StoreLeadsOn(quads, id, to, tail)
    ensures StoreLineage(quads, to, [n] + tail)
  {
    hide NodeRead;
    assert StoreLineage(quads, id, [n]);
  }

  /** However the reads turn out, the climb from `id` takes at most n steps. */
  ghost predicate ClimbsEnd(read: (ID, Node) -> bool, id: ID, n: nat)
    decreases n
  {
    forall m :: read(id, m) && m.Parents() != [] ==> n > 0 && ClimbsEnd(read, m.Parents()[0], n - 1)
  }

  /** Some reads lead in n steps from `from` up to `to`. */
  ghost predicate Climbs(read: (ID, Node) -> bool, from: ID, to: ID, n: nat)
    decreases n
  {
    if n == 0 then from == to
    else exists m :: read(from, m) && m.Parents() != [] && Climbs(read, m.Parents()[0], to, n - 1)
  }

  /** Whatever `from` climbs to, `to` climbs to, `steps` further on. */
  ghost predicate ClimbsOn(read: (ID, Node) -> bool, from: ID, to: ID, steps: nat) {
    forall x, n: nat :: Climbs(read, from, x, n) ==> Climbs(read, to, x, n + steps)
  }

  lemma ClimbsOnUp(read: (ID, Node) -> bool, id: ID, m: Node, to: ID, steps: nat)
    requires read(id, m) && m.Parents() != [] && ClimbsOn(read, id, to, steps)
    ensures ClimbsOn(read, m.Parents()[0], to, steps + 1)
  {
    forall x, n: nat | Climbs(read, m.Parents()[0], x, n) ensures Climbs(read, to, x, n + (steps + 1)) {
      assert Climbs(read, id, x, n + 1);
      assert (n + 1) + steps == n + (steps + 1);
    }
  }

  lemma ClimbsOnStart(read: (ID, Node) -> bool, id: ID)
    ensures ClimbsOn(read, id, id, 0)
  {
    forall x, n: nat | Climbs(read, id, x, n) ensures Climbs(read, id, x, n + 0) { assert n + 0 == n; }
  }

  lemma ClimbsHere(read: (ID, Node) -> bool, id: ID, to: ID, steps: nat)
    requires ClimbsOn(read, id, to, steps)
    ensures Climbs(read, to, id, steps)
  {
    assert Climbs(read, id, id, 0);
    assert 0 + steps == steps;
  }

  method LoadGraph(store: Store, sid: ID) returns (r: Result<Graph, Error>, ghost ld: Loaded, ghost sorted: seq<Node>)
    ensures Out(store.quads, sid, PTimestamp) == {} ==> r == Err(SessionNotFound(sid))
    ensures Out(store.quads, sid, PTimestamp) != {} ==>
      LoadRead(store.quads, sid, ld) && (r.Ok? <==> Acyclic(DepMap(NodeMap(ld.nodes))))
    ensures r.Ok? ==>
      && fresh(r.value) && SortedNodes(NodeMap(ld.nodes), sorted)
      && r.value.Value() == FromSorted(ld.session, NodeMap(ld.nodes), sorted, ld.headID, ld.status, ld.reason,
        ld.terminal)
  {
    hide SessionRead, NodesRead, SortedNodes, FromSorted, NodeMap, DepMap, Acyclic, First;
    sorted, ld := [], Loaded(Session(sid, 0, None), StatusOpen, NO_ID, "", NO_ID, []);
    var found := store.GetSession(sid);
    if found.Err? { return Err(found.error), ld, []; }
    var (sess, status) := found.value;
    var head := store.FirstOut(sid, PHead);
    var reason, terminal := "", NO_ID;
    if status.StatusClosed? {
      var er := store.FirstOut(sid, PEndReason);
      var en := store.FirstOut(sid, PEndNode);
      reason, terminal := ParseString(er), ID(ParseString(en));
      assert First(store.quads, sid, PEndReason, er) && First(store.quads, sid, PEndNode, en);
    }
    var members := Enumerate(In(store.quads, IRI(sid), PSession));
    assert forall i :: 0 <= i < |members| ==> members[i] in members;
    var nodes := store.ReadNodes(members);
    ld := Loaded(sess, status, ID(ParseString(head)), reason, terminal, nodes);
    assert EndRead(store.quads, sid, ld);
    r, sorted := RestoreFromNodes(sess, nodes, ID(ParseString(head)), status, reason, terminal);
  }

  /** Follows first parents to a root. The source has no cycle guard, so all climbs from the node must be bounded. */
  method GetLineage(store: Store, nodeID: ID, ghost bound: nat) returns (r: Result<seq<Node>, Error>)
    requires ClimbsEnd(Reader(store.quads), nodeID, bound)
    ensures r.Ok? ==> StoreLineage(store.quads, nodeID, r.value)
    ensures r.Err? ==> r.error.NodeNotFound? && Out(store.quads, r.error.id, PSession) == {}
                       && exists n: nat :: Climbs(Reader(store.quads), nodeID, r.error.id, n)
  {
    hide NodeRead, StoreLineage, StoreLeadsOn, ParentIDs, ClimbsOn, Climbs;
    var lineage: seq<Node> := [];
    var current := nodeID;
    ghost var tail: seq<Node> := [];
    ghost var steps, left: nat := 0, bound;
    StoreLeadsOnStart(store.quads, nodeID);
    ClimbsOnStart(Reader(store.quads), nodeID);
    while true
      invariant Reversed(lineage) == tail && StoreLeadsOn(store.quads, current, nodeID, tail)
      invariant ClimbsOn(Reader(store.quads), current, nodeID, steps)
      invariant ClimbsEnd(Reader(store.quads), current, left)
      decreases left
    {
      var found := store.GetNode(current);
      if found.Err? {
        ClimbsHere(Reader(store.quads), current, nodeID, steps);
        return Err(found.error);
      }
      var n := found.value;
      ReversedPush(lineage, n);
      lineage := lineage + [n];
      var parents := CollectParents(n.edges);
      if |parents| == 0 {
        StoreLeadsToRoot(store.quads, current, n, nodeID, tail);
        var ordered := Reverse(lineage);
        return Ok(ordered);
      }
      StoreLeadsOnUp(store.quads, current, n, nodeID, tail);
      ClimbsOnUp(Reader(store.quads), current, n, nodeID, steps);
      tail, steps, left := [n] + tail, steps + 1, left - 1;
      current := parents[0];
    }
  }
}
