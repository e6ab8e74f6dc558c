# A verified model of the session graph, its stores and its protocols

This project models how an SGP session is kept, stored, sent, watched and handed over, and proves
what those parts promise. It stands beside the Go sources; paths below are relative to the repository root.

## What is modelled

**The session graph** (`pkg/sgp`). `GraphState` gives the graph as a value and each locked public method
as one atomic step; `SessionGraph.Graph` is the class with the fields of the source, and each of its
methods is proved equal to its step. `CallEffects` and `EventFields` say what each step does, field by field, to the
graph, the node and the event. `GraphInvariant` proves that every run keeps four views of one append order
in agreement: the node table, the children index, the head and the event log. `GraphTheorems` draws
the consequences: lineages, forward walking, persistence of history.
`Replay`, `AcceptedLogs` and `RestoredLogs` treat the event log: replaying it, which logs are accepted at all, what
they restore to, and why the others are refused;
`RepeatedIDs` and `RepeatedWalks` say exactly when an accepted log keeps all lineages and all forward walks. `Lineage` is the
theory of both walks.

**The sort** (`topoSortNodes`). `TopoOrder` defines, for any finite dependency relation, cycles,
topological orders and the first-in first-out order: among all orders, the one in which items follow
the item that released them, with timestamps deciding between items released together. `TopoSort` is Kahn's algorithm with its in-degree map,
edge lists and queue, proved to succeed exactly on acyclic relations and to produce that order.
`Storage` rebuilds graphs from unordered nodes and turns graphs back into logs. `TopoLevels` says exactly when equal depths
come in timestamp order and which item comes last, and `Ties` carries both to equal timestamps; `LevelOrder` and `MissingParents`
draw the consequences for node tables.

**The Cayley store** (`pkg/store/cayley`). The quad store is a set of quads with atomic batches and reads
in arbitrary order: `CayleyStore` says of each read only which results are possible, so that every theorem
holds for all of them. `Quads`, `NodeCodec` and `EdgeCodec` treat the flattening of nodes with reified weighted
edges and what a read gives back, `Readings` which reads there are; `WriteThrough` proves that each graph call followed by its store call keeps the store a
faithful copy, over whole runs; `StoreTheorems` proves what loading gives back, and `LineageChoice` when a stored lineage is
settled. `Continued` is a session that is loaded again and again between its calls. `StoreRuns` follows any run of store calls on any number of sessions. `Sessions` is the paged session listing, and
`ListedRuns` what it shows after such a run.

**The sgpd path** (`cmd/sgpd`, `pkg/store/sgpd`). `Convert` is the protobuf conversion, `WireForms` what it does with each field, `Sgpd` and
`SgpdClient` both ends of the wire, `SgpdTheorems`, `LostHead` and `LostEnding` what survives and what does not,
`StoreToSgpd` the path from writer through store, server and wire to a reader.

**Watching** (`watch.go`, `WatchSession`). `PubSub` is the hub with its bounded channels and all runs of
subscribe, publish, cancel and receive; `CayleyWatch` the mixin that changes it in place. `OverlappingPublishes` splits
publishes into single sends that interleave under the read lock, and carries the results over. `WatchSession` is a
state machine over every interleaving of store calls (a `WriteNode` applies its quads, then publishes) with streams
(subscribe, snapshot, live); its state holds the quads, and `WatchSnapshot` says what a snapshot read from them shows.

**The harness** (`examples/sgp-harness-math`). `MathHarness` is the inference loop with a graph, a store
and a head pointer; the model, the tools, the process launcher, the clock and the ID generator are a
`World` whose answers are arbitrary; each round of the loop is tied to the reply it got, and each recorded result to
the tool run it came from. `Transcript` says in which order messages may come, `Chain` how a single
chain lives in graph and store, and `HarnessRuns` follows a session through any number of processes.

**The envelope decoder** (`oacstream/proto.go`). `Wire` gives varints, tags, groups and length-delimited records
after the Protocol Buffers Encoding guide ("Base 128 Varints", "Message Structure", "Length-Delimited Records", "Groups");
`Envelope` the two decoding loops and the encoder.

## What the proofs assume

- A generated ID is non-empty, not stored, and not named by any edge so far. `appendNode` does not check
  this (`pkg/sgp/graph.go:404-412`).
- The extra edges of `AppendTypedNode` hold no parent edge: they are attached unchecked after the children
  index was built (`pkg/sgp/graph.go:231-237`). `Replay.TypedAppendReplays` shows that this is exactly what replay needs.
- Session IDs and node IDs in one store are disjoint, and each session is created and ended once. The store
  does not check either.
- Where parents must come back from the store, no parent target begins with `edge:`; where a load must succeed, no branch origin
  does either. Both are exactly what is needed for them to be read as written (`NodeCodec.ParentsReadBackIff`,
  `StoreTheorems.LoadKeepsGraph`); generated UUIDs meet them. Other edges may be anything.
- Text forms of JSON, RFC 3339 times and floats round-trip; they are values of an abstract text type. Instants are integers and weights and importances are reals.
- Go strings used as IDs are wrapped in `ID`; the empty text means "none", as in the source.

## Where code and comments disagree

The model follows the code.

- `RestoreFromNodes` is documented to fail on a missing parent (`pkg/sgp/storage.go:125-126`); the code skips
  references outside the map (`pkg/sgp/storage.go:255-257`). `MissingParents.OrphanAccepted` is a bag that is accepted all the
  same; `Storage.RestoreFromNodes` does what the comment says iff the nodes are cyclic or every parent is in the bag, and by
  `MissingParents.AllResumeIff` what it builds resumes from every node iff no first parent is missing.
- `topoSortNodes` is said to order a level by timestamp (`pkg/sgp/storage.go:238`); the queue orders only items
  released together. `LevelOrder.LevelsNotInTimeOrder` is a reachable graph of five nodes; `LevelOrder.SortOrdersLevelsIff` is
  the exact condition: ages follow those of the youngest dependencies one level up.
- Replaying synthesised events sets the head to the last sorted node (`pkg/sgp/storage.go:376`), so sgpd can
  lose the head of a branching session: `LostHead.BranchingLosesHead`. `SgpdTheorems.HeadKeptIff` is the exact condition:
  every other node is sooner than the head, by depth, then by latest dependencies, then by timestamp; with equal timestamps
  `SgpdTheorems.HeadKeptByEveryRunIff`.
- Following the cursors of `ListSessions` is meant to visit every session; with equal timestamps a session can be missed
  (`Sessions.TiesCanSkip`), and only then: `Sessions.PagesShowAllIff`.
- A replayed log can put a node under itself when it uses a node ID twice (`AcceptedLogs.RepeatedIDsCanCycle`);
  `RepeatedIDs.ReplayKeepsLineagesIff` is the exact condition on the log. In the same way forward walking can go round in a
  circle (`RepeatedWalks.RepeatedIDsCanLoop`), exactly when `RepeatedWalks.ReplayKeepsWalksIff` says.
- `GetLineage` is meant to return the canonical lineage (`pkg/store/cayley/store.go:271-291`); the store keeps no order of parents, so it
  does so for certain iff no node on the way has two parents: `LineageChoice.StoreLineageIsCanonicalIff`, with a sample in
  `StoredSamples.LineageDiverts`.
- Targets of plain edges that begin with `edge:` are taken for edge IRIs when they are read (`pkg/store/cayley/store.go:224-268`) and cut or dropped:
  `StoredSamples.ParentIsLost`, with the exact conditions `NodeCodec.ParentsReadBackIff` and `EdgeCodec.EdgesSurviveIff`.
- Loading through sgpd is meant to work for every stored session; an end with neither a known reason nor a terminal node is taken
  for a second start: `LostEnding.TimeoutNeverLoads`, and only such an end: `Sgpd.LoadSucceeds`.

## Model

| member | source | states |
|---|---|---|
| `Types.CollectParents` | pkg/sgp/types.go:274-282 | the accumulating loop returns the targets of the parent edges in edge order |
| `SessionGraph.Graph.constructor` | pkg/sgp/graph.go:96-122 | a new graph has the given session and names, no nodes, no log, no head, and is neither started nor closed |
| `SessionGraph.Graph.Start` | pkg/sgp/graph.go:127-153 | an unstarted graph gets the start time, the started mark and one start event with its session; a closed or started one is left alone, with that error |
| `SessionGraph.Graph.Validate` | pkg/sgp/graph.go:432-454 | the loop decides references as the specification does: first bad one wins, repeats dropped |
| `SessionGraph.Graph.Append` | pkg/sgp/graph.go:369-430 | on success one node made of the arguments is returned, stored, logged last, made the head and listed last under each distinct parent, with one parent edge each; otherwise nothing changes and the error names the first check that fails |
| `SessionGraph.Graph.IndexChild` | pkg/sgp/graph.go:412-417 | each parent, in order, gets the child at the end of its list |
| `SessionGraph.Graph.AppendTypedNode` | pkg/sgp/graph.go:221-255 | the same with the given kind, the one content field that was given, and exactly the extra edges behind the parent edges, in the table, in the log and in the result |
| `SessionGraph.Graph.End` | pkg/sgp/graph.go:261-299 | an open graph is closed with the reason and its head as terminal node, and one end event says so; an unknown reason, a closed or an unstarted graph changes nothing |
| `SessionGraph.Graph.Head` | pkg/sgp/graph.go:176-190 | the stored head node, or none |
| `SessionGraph.Graph.ResumeNodes` | pkg/sgp/graph.go:456-480 | whenever the climb along first parents ends, the loop ends, with the lineage of the node or the first ID missing on the way |
| `Lineage.ClimbEndsIff` | pkg/sgp/graph.go:456-480 | the climb ends iff there is a lineage or a point at which it breaks |
| `SessionGraph.Graph.AdvanceHead` | pkg/sgp/graph.go:335-355 | whenever single-child steps lead to an end, the loop returns that end; an unknown node is an error |
| `SessionGraph.Graph.NeedsResponse` | pkg/sgp/graph.go:357-367 | true exactly if no child is listed under the node and it has a user message or a tool result; an unknown node is an error |
| `SessionGraph.Graph.LinkNodeParents` | pkg/sgp/storage.go:383-399 | fails at the first unknown parent, otherwise indexes the node under each |
| `SessionGraph.Graph.ApplyEventToGraph` | pkg/sgp/storage.go:301-323 | one event changes the graph and the learned names as the replay step does |
| `SessionGraph.RestoreFromEvents` | pkg/sgp/storage.go:84-118 | the loop computes the fold of the replay step over the log, with the same error |
| `GraphInvariant.ValidatedReferences` | pkg/sgp/graph.go:432-454 | validation succeeds iff all references are non-empty and stored, and keeps each once |
| `GraphInvariant.AppendShape` | pkg/sgp/graph.go:206-255 | a plain or typed append fails without effect or adds one node with the new ID, time, message and parents |
| `GraphInvariant.StepKeepsInv` | pkg/sgp/graph.go:127-299 | every call keeps table, children index, head and log in agreement on one append order |
| `GraphInvariant.ReachableInv` | pkg/sgp/graph.go:96-299 | that agreement holds in every reachable state |
| `CallEffects.StartEffect` | pkg/sgp/graph.go:127-153 | what a start does to every field of the graph, and what its event carries |
| `CallEffects.AppendEffect` | pkg/sgp/graph.go:369-430 | what an append does to every field of the graph, and every field of its node and its event |
| `CallEffects.TypedEffect` | pkg/sgp/graph.go:221-255 | the same for typed nodes: kind, one content field, parent edges and then exactly the extra edges |
| `CallEffects.EndEffect` | pkg/sgp/graph.go:261-299 | what an end does to every field of the graph, and what its event carries |
| `CallEffects.ReferencesDecided` | pkg/sgp/graph.go:432-454 | references are refused for the first empty or unknown one, and otherwise kept by their first occurrence |
| `EventFields.ReachableLogCarries` | pkg/sgp/graph.go:143-151 | in every reachable graph the log is a start event, one event carrying each node in append order, and an end event once closed, field by field |
| `SessionGraph.PendingIff` | pkg/sgp/graph.go:357-367 | in a reachable graph a node waits for a response iff no stored node names it as a parent and it has a user message or a tool result, so never with a system or assistant message |
| `GraphTheorems.ReachableLeaf` | pkg/sgp/graph.go:412-417 | in a reachable graph no child is listed under an ID iff no stored node names it as a parent |
| `GraphTheorems.ReachableChildren` | pkg/sgp/graph.go:412-417 | `children` is the exact inverse of `Parents()`, each child listed once |
| `GraphTheorems.ReachableParents` | pkg/sgp/graph.go:432-454 | parents exist and were appended strictly earlier |
| `GraphTheorems.ReachableRootAndHead` | pkg/sgp/graph.go:369-430 | a non-empty graph has exactly one root; the head is the last appended node and a leaf |
| `GraphTheorems.ReachableLineage` | pkg/sgp/graph.go:456-480 | every stored node has exactly one lineage: repetition-free, from the one root, along first parents, never broken |
| `GraphTheorems.ReachableAdvance` | pkg/sgp/graph.go:335-355 | forward walking ends at one descendant, whose child count is not one |
| `GraphTheorems.UnbranchedAdvanceFindsHead` | pkg/sgp/graph.go:335-355 | without branching, walking forward from any node finds the current head |
| `GraphTheorems.HistoryPersists` | pkg/sgp/graph.go:127-299 | no call changes a stored node or any existing lineage, a failing call changes nothing, and the log is start, appended, at most one end |
| `GraphTheorems.HistoryPersistsOverRuns` | pkg/sgp/graph.go:127-299 | no further run of calls changes a stored node, an existing lineage or the log so far |
| `GraphTheorems.NewNodeLineage` | pkg/sgp/graph.go:369-430 | a new node's lineage is its first parent's lineage and the node itself |
| `Replay.ReplayEqualsLive` | pkg/sgp/storage.go:84-118 | replaying a reachable graph's log rebuilds it entirely except names it never emitted; it rebuilds it exactly iff those were the defaults |
| `Replay.RestoredBehavesAlike` | pkg/sgp/storage.go:84-118 | with default names, restored and live graph answer any further calls alike, given the same IDs and clock |
| `Replay.TypedAppendReplays` | pkg/sgp/graph.go:221-255 | a log with typed extra edges replays to the live graph iff none of them is a parent edge |
| `AcceptedLogs.AcceptedLogs` | pkg/sgp/storage.go:84-118 | a log is accepted iff it has one start event, and every node event follows it with a non-empty ID, its session's ID and parents appended before |
| `RestoredLogs.RefusedFor` | pkg/sgp/storage.go:84-118 | a log is refused for its first event at fault, with the error and place of that event, told from the fields of the events before it; or for being empty or without a start event |
| `RestoredLogs.RestoredFrom` | pkg/sgp/storage.go:301-399 | of any accepted log, the session comes from the start event, the ending from the last end event, the head from the last node event, each node from the last event with its ID, and each name from the last event of its kind |
| `AcceptedLogs.AcceptedGraph` | pkg/sgp/storage.go:326-399 | with distinct node IDs the accepted graph is parent-closed, every parent was appended strictly earlier, and both walks end from every node |
| `AcceptedLogs.RepeatedIDsCanCycle` | pkg/sgp/storage.go:343-380 | with a repeated node ID an accepted log can close a parent cycle without any lineage |
| `RepeatedIDs.StoringKeepsLineagesIff` | pkg/sgp/storage.go:343-380 | one node event keeps every lineage iff it does not put its ID under itself |
| `RepeatedIDs.ReplayKeepsLineagesIff` | pkg/sgp/storage.go:84-118 | in an accepted log every prefix leaves a lineage to each node iff no node event puts its ID under itself |
| `RepeatedIDs.DistinctIDsKeepLineages` | pkg/sgp/storage.go:84-118 | a log without repeated node IDs never does |
| `RepeatedWalks.LinkingKeepsWalksIff` | pkg/sgp/storage.go:383-399 | one node event keeps every forward walk finite iff the walk from its ID does not run, past all its other parents, to a leaf that is once its parent |
| `RepeatedWalks.ReplayKeepsWalksIff` | pkg/sgp/storage.go:84-118 | in an accepted log every prefix leaves all forward walks finite iff no node event loops back so |
| `RepeatedWalks.DistinctIDsKeepWalks` | pkg/sgp/storage.go:84-118 | a log without repeated node IDs never does |
| `RepeatedWalks.RepeatedIDsCanLoop` | pkg/sgp/storage.go:383-399 | with a repeated node ID an accepted log can close a circle on which `AdvanceHead` would not end |
| `TopoOrder.OrderedIsAcyclic` | pkg/sgp/storage.go:239-298 | a relation with a topological order has no cycle |
| `TopoOrder.StuckSetHasCycle` | pkg/sgp/storage.go:293-296 | if every item of a non-empty set waits inside it, the set contains a cycle |
| `TopoOrder.FifoUnique` | pkg/sgp/storage.go:264-291 | with distinct timestamps there is only one first-in first-out order |
| `TopoOrder.DepthExists` | pkg/sgp/storage.go:239-298 | an ordered relation has a depth, the length of the longest dependency chain |
| `TopoOrder.FifoDepthMonotone` | pkg/sgp/storage.go:264-291 | depth never falls along the sorted order |
| `TopoOrder.FifoLastIsDeepest` | pkg/sgp/storage.go:264-291 | the last sorted item has the greatest depth |
| `TopoLevels.LevelsInTimeOrderIff` | pkg/sgp/storage.go:236-291 | with distinct timestamps, items of equal depth are in timestamp order iff an older youngest dependency one level up never goes with a younger item |
| `TopoLevels.SoonerStandsFirst` | pkg/sgp/storage.go:264-291 | with distinct timestamps the place of two items is decided by depth, then by their latest dependencies, then by timestamp |
| `TopoLevels.LastIsLatest` | pkg/sgp/storage.go:264-291 | an item is last iff every other one is sooner |
| `Ties.RunsAreRefinedRuns` | pkg/sgp/storage.go:264-291 | with equal timestamps, the runs of the sort are the runs under all ways to break the ties |
| `Ties.LastInEveryRunIff` | pkg/sgp/storage.go:264-291 | an item is last in every run iff it is latest under every way to break the ties |
| `Ties.RunLevelsIff` | pkg/sgp/storage.go:236-291 | whatever the ties, a run keeps levels in timestamp order iff ages follow after breaking the ties as it does |
| `LevelOrder.SortOrdersLevelsIff` | pkg/sgp/storage.go:236-238 | the documented order within a level holds of a node table exactly under that condition |
| `LevelOrder.LevelsNotInTimeOrder` | pkg/sgp/storage.go:236-238 | a reachable graph of five nodes with a level that no run of the sort puts in timestamp order |
| `TopoSort.CollectDependencies` | pkg/sgp/storage.go:226-234 | the loop returns the targets of parent and branch edges in edge order |
| `TopoSort.WaitsForTargets` | pkg/sgp/storage.go:226-262 | a node waits for exactly the stored targets of its `parent` and `branch_from` edges |
| `TopoSort.BuildDegrees` | pkg/sgp/storage.go:240-261 | in-degrees count distinct in-scope dependencies, and the edge lists are their exact inverse |
| `TopoSort.CollectRoots` | pkg/sgp/storage.go:264-272 | the starting queue holds exactly the items without dependencies |
| `TopoSort.SortByTime` | pkg/sgp/storage.go:270-272 | a permutation in ascending timestamp order, with ties in any order |
| `TopoSort.Release` | pkg/sgp/storage.go:279-290 | emitting an item lowers each dependent's count by one and queues exactly those it frees, in timestamp order |
| `TopoSort.EmitNext` | pkg/sgp/storage.go:274-291 | one round keeps the invariant of the sort |
| `TopoSort.KahnStuck` | pkg/sgp/storage.go:293-296 | when the queue runs dry too early, the items left over contain a cycle |
| `TopoSort.TopoSortNodes` | pkg/sgp/storage.go:239-298 | succeeds iff the in-scope relation is acyclic, with every stored parent and branch origin before its node, older before younger among nodes that wait for the same, and the nodes in first-in first-out order; on failure what was emitted is closed under dependencies, everything else waits for something left over, and there is a cycle among that |
| `TopoSort.SortPutsTargetsFirst` | pkg/sgp/storage.go:239-298 | in a sorted table every stored target of a parent or branch edge stands before its node |
| `TopoSort.SortPutsOlderFirst` | pkg/sgp/storage.go:264-291 | of two nodes with the same stored targets the older stands first |
| `TopoSort.StalledLeavesCycle` | pkg/sgp/storage.go:293-296 | when everything left over waits for something left over, the left-over items contain a cycle |
| `Storage.RestoreFromNodes` | pkg/sgp/storage.go:129-173 | succeeds iff the relation of the nodes is acyclic, with the graph determined by the table and a sort of it that puts parents and branch origins first; it does as documented iff the nodes are cyclic or every parent is in the bag |
| `Storage.SynthesizeEvents` | pkg/sgp/storage.go:178-221 | the log is a start event with the session, one event carrying each node, parents and branch origins first, and an end event with the ending when closed; a cyclic graph yields no nodes |
| `Storage.ReachableAcyclic` | pkg/sgp/storage.go:239-298 | sorting a reachable graph never fails |
| `Storage.RestoreIsDeterministic` | pkg/sgp/storage.go:129-173 | with distinct timestamps every permutation of the input and every map order give the same graph |
| `MissingParents.OrphanAccepted` | pkg/sgp/storage.go:125-126 | a node whose parent is not in the bag is accepted, and its lineage breaks at once |
| `MissingParents.AllResumeIff` | pkg/sgp/storage.go:129-173 | in an accepted bag every node has a lineage iff no first parent is missing |
| `Quads.EdgeIRISplits` | pkg/store/cayley/quads.go:96-118 | an edge IRI made from a colon-free node ID splits back into its four parts, whatever the target |
| `Quads.EdgeIRIInjective` | pkg/store/cayley/quads.go:96-118 | edge IRIs determine node, kind and target |
| `Quads.EdgePredicates` | pkg/store/cayley/quads.go:47-69 | the eight kinds that are stored, by name, each with a predicate of its own that reads back as it |
| `NodeCodec.NodeFacts` | pkg/store/cayley/quads.go:77-143 | the quads of a node are exactly the facts about it and its edges: one per field that is set, one per edge of a storable kind, and a weight of its own for the two weighted kinds |
| `Quads.NodeToDeltas` | pkg/store/cayley/quads.go:77-123 | the loop emits additions of exactly the node's quads, in order |
| `CayleyStore.Store.ApplyDeltas` | pkg/store/cayley/store.go:75-77 | a batch is applied whole, or refused whole when it deletes an absent quad that may not be missing |
| `CayleyStore.Store.CreateSession` | pkg/store/cayley/store.go:45-51 | adds the session's quads and its global registration and nothing else |
| `CayleyStore.Store.WriteNode` | pkg/store/cayley/store.go:54-81 | refuses unknown sessions; otherwise adds the node's quads and moves the head in one batch |
| `CayleyStore.Store.EndSession` | pkg/store/cayley/store.go:84-102 | replaces the status and adds reason and terminal node |
| `CayleyStore.Store.GetSession` | pkg/store/cayley/store.go:294-323 | fails iff there is no timestamp; otherwise a possible reading of the session |
| `CayleyStore.SessionReadMeans` | pkg/store/cayley/store.go:294-323 | a session is closed iff its status reads `closed`, and spawned iff both halves of the reference are there |
| `CayleyStore.Store.ReconstructEdges` | pkg/store/cayley/store.go:224-268 | each edge quad gives one edge, kind by kind, with the weight of its reified node; garbled edge IRIs are skipped |
| `CayleyStore.Store.GetNode` | pkg/store/cayley/store.go:152-221 | fails iff the node has no session; otherwise a possible reading of the node |
| `NodeCodec.EdgeRoundTrip` | pkg/store/cayley/store.go:224-268 | clean edges come back exactly, each once, with weights on the two weighted kinds; clean means known kinds, plain targets that do not begin with `edge:`, and for reified edges a colon-free node ID and one weight each |
| `EdgeCodec.EdgesSurviveIff` | pkg/store/cayley/store.go:224-268 | a node gets its edges back from every store that holds it iff they are clean |
| `NodeCodec.NodeRoundTrip` | pkg/store/cayley/store.go:152-221 | whatever its edges, a node reads back with all other fields as stored and with its parents and branch origins cut where they begin with `edge:`; the parents once each if none does, and all edges if they are clean |
| `NodeCodec.ParentsReadBackIff` | pkg/store/cayley/store.go:224-268 | a node comes back with its parents, as a set, iff none of them begins with `edge:` |
| `StoredSamples.ParentIsLost` | pkg/store/cayley/store.go:236-262 | a reachable graph, written through, whose second node comes back as a root because its parent begins with `edge:` |
| `NodeCodec.StoredFormIsNode` | pkg/store/cayley/quads.go:127-143 | all of a node but its edges survives iff it has at most one content, and that fits its kind |
| `NodeCodec.StoredContent` | pkg/store/cayley/quads.go:127-143 | whatever contents a node has, its kind decides which one is read back, from the text of the first one set; a text of another kind reads as empty |
| `WriteThrough.CreateHolds` | pkg/store/cayley/store.go:45-51 | after a create the store holds exactly this open, empty session |
| `WriteThrough.WriteHolds` | pkg/store/cayley/store.go:54-81 | a write adds one node, moves the head, and disturbs no other node of the session, whether it has ended or not |
| `WriteThrough.WriteAccepted` | pkg/store/cayley/store.go:54-77 | a write to a session the store holds is never refused |
| `WriteThrough.EndHolds` | pkg/store/cayley/store.go:84-102 | an end changes the status and nothing about the nodes |
| `WriteThrough.WriteThroughStep` | pkg/store/cayley/store.go:45-102 | a graph call followed by its store call keeps the store a faithful copy, and the store accepts it |
| `WriteThrough.WriteThroughRun` | pkg/store/cayley/store.go:45-102 | after any run of a new graph the store, whatever else it holds, holds a faithful copy |
| `StoreRuns.StepKeepsFaithful` | pkg/store/cayley/store.go:45-102 | each store call changes its own session as it should and leaves every other session and the registry as they were |
| `StoreRuns.RunsAreFaithful` | pkg/store/cayley/store.go:45-102 | after any run of store calls on any number of sessions the quads hold exactly what was written to each |
| `StoreRuns.AllowedIsAccepted` | pkg/store/cayley/store.go:54-77 | the store accepts the write of a new node to any session created before |
| `StoreLoad.LoadGraph` | pkg/store/cayley/store.go:105-149 | fails for an unknown session; otherwise rebuilds the graph from one possible set of reads, iff that is acyclic |
| `StoreLoad.GetLineage` | pkg/store/cayley/store.go:271-291 | when climbs are bounded it ends, with a first-parent path as the reads give it, or at an ID it climbed to that has no node |
| `StoreTheorems.LoadKeepsGraph` | pkg/store/cayley/store.go:105-149 | loading a faithful copy gives the same session, head, ending and IDs, and each node as read back; it succeeds iff the dependencies, cut as they are read, have no cycle, and always if no parent or branch origin begins with `edge:` |
| `StoreTheorems.LoadKeepsBehaviour` | pkg/store/cayley/store.go:105-149 | if no parent begins with `edge:`, the loaded graph gives the same answers to `NeedsResponse` and `AdvanceHead` for every node |
| `StoreTheorems.TableDeps` | pkg/store/cayley/store.go:224-268 | the relation that a load sorts is fixed by the stored nodes, whatever order the reads come in |
| `Continued.StepResumes` | pkg/sgp/storage.go:129-173 | a call on a loaded graph has the outcome it has on the graph that was never unloaded, and keeps the two alike |
| `Continued.ReloadedIsUninterrupted` | pkg/store/cayley/store.go:105-149 | over any run of calls and loads in between, loading cannot be told from never unloading: same store, same outcome of every next call, same answers, and it can always be loaded once more |
| `StoreTheorems.MirroredRanked` | pkg/store/cayley/store.go:271-291 | on a faithful copy whose parents do not begin with `edge:`, every climb stays inside the graph and is bounded, whichever parent the store lists first |
| `StoreTheorems.StoreLineageIsCanonical` | pkg/store/cayley/store.go:271-291 | there, with at most one parent per node on the way, the stored lineage is the canonical one |
| `LineageChoice.ParentCanLead` | pkg/store/cayley/store.go:224-268 | any parent of a stored node comes first in some possible read, if no parent begins with `edge:` |
| `LineageChoice.StoreLineageIsCanonicalIff` | pkg/store/cayley/store.go:271-291 | if no parent begins with `edge:`, every possible stored lineage is the canonical one iff no node on the way up has two parents |
| `StoredSamples.LineageDiverts` | pkg/store/cayley/store.go:271-291 | a reachable graph of four nodes, written through, with a stored lineage that is not the canonical one |
| `StoreTheorems.LineageOf` | pkg/store/cayley/store.go:271-291 | there, the call always succeeds, with the canonical lineage as read back if it has no second parents |
| `Sessions.ListSessions` | pkg/store/cayley/store.go:326-367 | a page of all listed sessions in timestamp order: at most `limit` of them, or fifty, from just after the session with the cursor as ID, or from the front if there is none, with the last ID as next cursor iff more follow |
| `Sessions.ListingExists` | pkg/store/cayley/store.go:333-347 | every store has a listing |
| `Sessions.ListingUnique` | pkg/store/cayley/store.go:333-347 | with distinct timestamps every call works on the same listing |
| `Sessions.PageAt` | pkg/store/cayley/store.go:349-364 | the cursor handed out at a position leads on from exactly there |
| `Sessions.FollowCursors` | pkg/store/cayley/store.go:326-367 | following the cursors visits every session exactly once in timestamp order and stops, for any limit |
| `Sessions.TiesCanSkip` | pkg/store/cayley/store.go:345-364 | in any listing of any store, two neighbours with equal timestamps may come in either order, and a page ending between them can hide the second from every later call |
| `Sessions.PagesShowAllIff` | pkg/store/cayley/store.go:326-367 | for every limit and every sequence of calls, following the cursors shows every session, iff no two listed sessions share a timestamp |
| `ListedRuns.ListingShowsCreated` | pkg/store/cayley/store.go:326-347 | after any run of store calls a listing shows exactly the created sessions, each once and as created |
| `ListedRuns.PagesShowCreatedIff` | pkg/store/cayley/store.go:326-367 | after any run of store calls the cursors lead past every created session iff no two were created with the same timestamp |
| `Convert.ContentPartsToProto` | pkg/store/sgpd/convert/convert.go:200-212 | the loop converts part by part |
| `Convert.ContentPartsFromProto` | pkg/store/sgpd/convert/convert.go:241-253 | the loop converts part by part |
| `Convert.ParentEdgesFromProto` | pkg/store/sgpd/convert/convert.go:93-95 | each parent ID becomes one parent edge without weight, in order |
| `Convert.PartRoundTrip` | pkg/store/sgpd/convert/convert.go:214-276 | a content part survives the wire iff it sets at most one field |
| `Convert.PartsRoundTrip` | pkg/store/sgpd/convert/convert.go:200-253 | a list of parts survives iff each does |
| `Convert.MessageRoundTrip` | pkg/store/sgpd/convert/convert.go:101-166 | a message survives iff it sets at most one subtype and its parts survive |
| `Convert.NodeRoundTrip` | pkg/store/sgpd/convert/convert.go:64-98 | a node keeps identity, time, message and parents, and still asks for inference iff it did |
| `Convert.EventRoundTrip` | pkg/store/sgpd/convert/convert.go:13-61 | an event comes back with its node projected, an unknown reason dropped and its kind inferred |
| `WireForms.EventSent` | pkg/store/sgpd/convert/convert.go:13-31 | each field of an event, its node and its message is sent as the wire field of its own; of several parts or subtypes the first; of edges only the parents |
| `WireForms.EventReceived` | pkg/store/sgpd/convert/convert.go:33-62 | each wire field is received as the field of its own, an absent one as zero, and the kind is told by the fields |
| `Sgpd.LoadEvents` | cmd/sgpd/harness_handler.go:64-89 | the server sends the converted log of the loaded graph |
| `Sgpd.LoadGraph` | pkg/store/sgpd/client.go:109-123 | the client replays what it receives, with the same error |
| `Sgpd.RoundTrip` | pkg/store/sgpd/client.go:109-123 | both ends together compute the replay of the log as it crosses the wire |
| `Sgpd.LoadSucceeds` | pkg/store/sgpd/client.go:109-123 | loading fails iff the session ended with an unknown reason and no terminal node, an end that is taken for a second start |
| `LostEnding.TimeoutNeverLoads` | pkg/store/sgpd/client.go:109-123 | a session that the store accepts, ended before any node with a reason of its own, never loads through sgpd |
| `SgpdTheorems.LoadKeepsNodes` | pkg/store/sgpd/client.go:109-123 | on a reachable graph the path never fails and keeps every node's projection and the terminal state |
| `SgpdTheorems.LoadKeepsLineage` | pkg/store/sgpd/convert/convert.go:64-98 | every lineage keeps its IDs, and its messages when their parts set one field each |
| `SgpdTheorems.LoadKeepsBehaviour` | pkg/store/sgpd/client.go:109-123 | the loaded graph gives the same answers to `NeedsResponse` and `AdvanceHead` |
| `SgpdTheorems.LoadedHeadIsDeepest` | pkg/sgp/storage.go:343-380 | the loaded head is the last sorted node, a node of greatest depth |
| `SgpdTheorems.HeadKeptIff` | pkg/sgp/storage.go:343-380 | with distinct timestamps the head of a reachable graph survives iff every other node is sooner than it |
| `SgpdTheorems.HeadKeptByEveryRunIff` | pkg/sgp/storage.go:343-380 | whatever the timestamps, a run keeps the head iff it is latest after breaking the ties as the run does, and every run keeps it iff it is latest under every way to break them |
| `SgpdTheorems.KeptHeadIsDeepest` | pkg/sgp/storage.go:343-380 | even with equal timestamps the head survives only if it has the greatest depth |
| `SgpdTheorems.DeepestHeadIsKept` | pkg/sgp/storage.go:343-380 | even with equal timestamps the head survives if it alone has the greatest depth |
| `SgpdTheorems.ChainKeepsHead` | pkg/sgp/storage.go:343-380 | without branching the head survives, whatever the timestamps |
| `LostHead.BranchingLosesHead` | pkg/sgp/storage.go:343-380 | a reachable branching graph whose head is lost however ties are broken |
| `SgpdClient.Client.AppendEvent` | cmd/sgpd/harness_handler.go:21-62 | the server dispatches on the inferred kind to create, write or end |
| `SgpdClient.Client.CreateSession` | pkg/store/sgpd/client.go:54-68 | has the same effect on the store as a local create |
| `SgpdClient.Client.WriteNode` | pkg/store/sgpd/client.go:71-88 | writes the node's wire projection, with the store's own error cases |
| `SgpdClient.Client.EndSession` | pkg/store/sgpd/client.go:91-106 | ends the session, except that an end with neither known reason nor terminal node is taken for a start |
| `StoreToSgpd.EndToEnd` | cmd/sgpd/harness_handler.go:64-89 | if no parent begins with `edge:`, of a session written to the store, loaded by the server and replayed by a client every node arrives under its ID as the wire projection of a read, and the terminal state and behaviour are kept |
| `StoreToSgpd.ArrivalKeeps` | pkg/store/sgpd/convert/convert.go:64-98 | an arrived node has its identity, session and time, its parents as a set if none begins with `edge:`, and its message when the parts set one field each |
| `StoreToSgpd.EndToEndLineage` | cmd/sgpd/harness_handler.go:64-89 | under the same condition a lineage without second parents arrives node for node, with its IDs, and with its messages when the parts fit |
| `CayleyWatch.Watcher.Watch` | pkg/store/cayley/watch.go:39-61 | a fresh open channel is appended to the session's subscribers |
| `CayleyWatch.Watcher.Publish` | pkg/store/cayley/watch.go:25-35 | each subscriber in order gets one try; a closed channel would panic |
| `CayleyWatch.Watcher.Cancel` | pkg/store/cayley/watch.go:46-58 | removes the first occurrence of the channel and closes it; a second close panics |
| `PubSub.PublishReaches` | pkg/store/cayley/watch.go:25-35 | a publish never panics, and tries exactly the open channels of its session, once each |
| `PubSub.StepKeepsInv` | pkg/store/cayley/watch.go:25-61 | a channel is subscribed, once and to its own session, exactly while it is open; only a second cancel panics |
| `PubSub.PanicsIffCancelledTwice` | pkg/store/cayley/watch.go:46-58 | a run of any operations panics iff some cancel function is called twice |
| `PubSub.DeliveryInOrder` | pkg/store/cayley/watch.go:25-35 | taken plus buffered is exactly what was accepted, in order |
| `PubSub.OffersAreThePublishes` | pkg/store/cayley/watch.go:25-61 | a subscriber is offered every publish to its session from its subscription to its cancellation, and no other |
| `PubSub.SubscriptionSafety` | pkg/store/cayley/watch.go:25-61 | taken plus buffered is an in-order subsequence of those publishes, and all of them if the buffer was never full at one |
| `OverlappingPublishes.EachChannelSeesARun` | pkg/store/cayley/watch.go:25-61 | however publishes interleave under the read lock, none sends on a closed channel, and each channel sees a run without overlaps, with the same subscriptions, buffer, nodes taken and nodes offered |
| `OverlappingPublishes.OverlapSafety` | pkg/store/cayley/watch.go:25-35 | taken plus buffered is an in-order subsequence of the publishes in the order of their tries, and all of them if the buffer was never full at one; none tries a channel twice |
| `OverlappingPublishes.FinishedReachesAll` | pkg/store/cayley/watch.go:25-35 | a finished publish has tried exactly the channels of its session that were open when it took the lock |
| `OverlappingPublishes.FinishedComesFirst` | pkg/store/cayley/watch.go:25-35 | a publish that ended before another began comes before it on every channel |
| `OverlappingPublishes.OverlapsMayDiffer` | pkg/store/cayley/watch.go:25-35 | after any run, wherever a session has two subscribers, two overlapping publishes can come in different orders on them |
| `OverlappingPublishes.CanFinish` | pkg/store/cayley/watch.go:25-35 | at any point a publish that has begun can finish on its own, without a reader or another publish |
| `WatchSession.RunsAreSound` | cmd/sgpd/management_handler.go:174-233 | no interleaving of writers and streams crashes, each stream's channel is open until it leaves, and the store holds exactly what was written |
| `WatchSession.WritesAreAccepted` | pkg/store/cayley/store.go:54-77 | so it does at any point of any interleaving with streams |
| `WatchSession.FinishedIsApplied` | pkg/store/cayley/store.go:75-80 | a node is in the store before it is published |
| `WatchSession.NoGap` | cmd/sgpd/management_handler.go:190-232 | after its snapshot, each node whose write finished was replayed as stored, was sent in an event that carries it whole, is buffered, or was dropped when the channel held exactly 64 |
| `WatchSession.CaughtUp` | cmd/sgpd/management_handler.go:190-232 | a stream that sent its history, drained its channel and lost nothing has sent every finished node, replayed as stored or carried whole by a live event |
| `WatchSession.StreamOrder` | cmd/sgpd/management_handler.go:200-232 | history is sent first; the live part is, index by index, events that carry whole an in-order subsequence of the nodes published since the subscription |
| `WatchSession.CanSettle` | cmd/sgpd/management_handler.go:190-232 | from any point of any interleaving all writes in flight can return and a stream with its snapshot can send its history and empty its channel |
| `WatchSnapshot.SnapshotShowsStored` | cmd/sgpd/management_handler.go:201-213 | loading and synthesising replays every node the store holds for the session, as stored |
| `WatchSnapshot.SnapshotShowsOnlyStored` | cmd/sgpd/management_handler.go:201-213 | and replays no other node |
| `Chain.ChainLineage` | pkg/sgp/graph.go:456-480 | on a chain the lineage of the head is the whole chain |
| `Chain.AppendExtends` | pkg/sgp/graph.go:369-430 | appending under the head of a chain never fails and makes it one longer |
| `Chain.ChainLoads` | pkg/store/cayley/store.go:105-149 | a stored chain loads back node for node, with its head |
| `Transcript.Blocks` | examples/sgp-harness-math/harness.go:152-249 | in an unbroken transcript every node with calls heads a block: answered in order, a failed hand-off, or still open at the end |
| `Transcript.SettledTranscript` | examples/sgp-harness-math/harness.go:174-248 | when no call is open, each node with calls is followed by its results in order and no other, or by one error result for a failed teleport |
| `Transcript.ToChatMessages` | examples/sgp-harness-math/harness.go:346-378 | the loop renders node by node; `Transcript.Rendered` and `Transcript.PromptCoversChain` say what a node becomes |
| `Transcript.PromptCoversChain` | examples/sgp-harness-math/harness.go:346-378 | the prompt for a chain leaves no message out, and gives each its role, its text and the names and arguments of its calls |
| `Transcript.Rendered` | examples/sgp-harness-math/harness.go:346-378 | an archived node or one of another kind than experience is left out; any other becomes one chat message with its role, text and calls |
| `Transcript.TextIsJoined` | examples/sgp-harness-math/harness.go:346-378 | the text of a message is the texts of its parts, joined in order |
| `MathHarness.Harness.Append` | examples/sgp-harness-math/harness.go:164-172 | an append under the head pointer never fails, puts exactly this message behind the others, and puts graph and head one node ahead of the store |
| `MathHarness.Harness.PersistNode` | examples/sgp-harness-math/harness.go:333-335 | the store accepts the node and agrees with the graph again |
| `MathHarness.Harness.Resume` | examples/sgp-harness-math/harness.go:114-117 | the lineage of the head pointer is the whole session |
| `MathHarness.Harness.TeleportIndex` | examples/sgp-harness-math/harness.go:175-182 | the first call named teleport, or -1 |
| `MathHarness.Harness.RunTool` | examples/sgp-harness-math/harness.go:227-248 | a tool is run with the name and arguments of its call, and its output and failure are the result recorded under the call ID |
| `MathHarness.CallIDsDiffer` | examples/sgp-harness-math/harness.go:152-163 | different calls of a process have different call IDs |
| `MathHarness.Harness.RunTools` | examples/sgp-harness-math/harness.go:227-248 | each call is run once, in order, with its own name and arguments, and answered under its own call ID with the output and error flag of that run |
| `MathHarness.Harness.HandOff` | examples/sgp-harness-math/harness.go:189-220 | the hand-off starts with graph and store equal; only its failure is recorded, with its error text, as the answer to the first teleport call |
| `MathHarness.Harness.CallTools` | examples/sgp-harness-math/harness.go:152-248 | the calls are recorded with the requested names and arguments, then either handed off before any tool runs or all run and answered |
| `MathHarness.Harness.InferenceStep` | examples/sgp-harness-math/harness.go:112-252 | one round follows from the reply of the model: none ends the loop and adds nothing, a text is recorded and returned, calls are recorded, handed off or run, and answered |
| `MathHarness.Harness.RunInferenceLoop` | examples/sgp-harness-math/harness.go:112-252 | between one and ten rounds, each with the whole stored session as prompt and each following from its reply; all but the last had calls that were answered, and the last one decides how the loop ends |
| `MathHarness.Harness.HandleTurn` | examples/sgp-harness-math/harness.go:90-110 | the user message with exactly the given text is persisted before the loop starts, and the loop adds no user message |
| `MathHarness.Harness.HandleArrival` | examples/sgp-harness-math/harness.go:280-331 | exactly a pending hand-off is answered, call by call, the teleport calls with the greeting and the others by running them, before the loop starts |
| `MathHarness.Harness.AnswerCall` | examples/sgp-harness-math/harness.go:292-325 | on arrival a teleport call is answered with the greeting and any other by running its tool |
| `MathHarness.Harness.Close` | examples/sgp-harness-math/harness.go:337-344 | graph and store end with the same reason and the head as terminal node |
| `HarnessRuns.StartSession` | examples/sgp-harness-math/harness.go:42-66 | a new session is one persisted system node with the prompt as its text, and graph, store and head agree |
| `HarnessRuns.LoadSession` | examples/sgp-harness-math/harness.go:67-76 | a process that takes over finds the session exactly as it was left, with its call counter at zero; an unknown session is an error |
| `HarnessRuns.RunProcess` | examples/sgp-harness-math/main.go:174-223 | a process leaves the session closed, with a hand-off pending, or waiting for the model after an arrival error; the user messages it adds are its input lines in order, up to a quit line and without empty ones, all of them if it closes |
| `HarnessRuns.TakeOver` | examples/sgp-harness-math/main.go:174-223 | the same for a process that takes over a handed-off session |
| `HarnessRuns.RunSession` | examples/sgp-harness-math/main.go:155-223 | over any number of processes the session is one chain, unbroken, every model call and hand-off found graph and store equal, and the user messages are what the processes were told, in order |
| `Wire.VarintRoundTrip` | examples/adk-oac-sgp-agent/oacstream/proto.go:66-71 | an appended varint is read back with its size, whatever follows |
| `Wire.BytesFieldRoundTrip` | examples/adk-oac-sgp-agent/oacstream/proto.go:72-81 | an appended length-delimited field is read back as one record, whatever follows |
| `Wire.RecordsConcat` | examples/adk-oac-sgp-agent/oacstream/proto.go:89-151 | concatenated messages are the concatenation of their records |
| `Wire.VarintMeaning` | examples/adk-oac-sgp-agent/oacstream/proto.go:86-94 | a varint is read exactly from at most ten bytes of which the last alone has its high bit clear, as the sum of their low seven bits by powers of 128, below 2 to the 64 |
| `Wire.FixedFields` | examples/adk-oac-sgp-agent/oacstream/proto.go:140-150 | a field of wire type 1 takes eight bytes behind its tag and one of type 5 four |
| `Wire.GroupField` | examples/adk-oac-sgp-agent/oacstream/proto.go:140-150 | records between a start tag and its end tag are one field |
| `Envelope.UnmarshalEvent` | examples/adk-oac-sgp-agent/oacstream/proto.go:166-226 | accepts iff the data are records, known ones are length-delimited and the last channel is not empty; the last record of each field wins; otherwise the first fault is the error |
| `Envelope.EventNumbers` | examples/adk-oac-sgp-agent/oacstream/proto.go:166-226 | the last field 1 is the channel, 2 the payload and 3 the content type, all of wire type 2, and a channel is required |
| `Envelope.EventFaultMeans` | examples/adk-oac-sgp-agent/oacstream/proto.go:166-226 | an event is refused for a field exactly if reading good fields leaves that one first |
| `Envelope.UnmarshalOrchestratorEnvelope` | examples/adk-oac-sgp-agent/oacstream/proto.go:86-164 | accepts iff wire types match, every event is acceptable, the last session ID is not empty and exactly one body kind is present; the result is the fold over the records; otherwise the error is the first fault, or the complaint about what is missing |
| `Envelope.EnvelopeNumbers` | examples/adk-oac-sgp-agent/oacstream/proto.go:86-164 | the last field 1 is the session ID, the last field 2 the event and any field 3 the end of the session, all of wire type 2; one of the last two is required, and not both |
| `Envelope.EnvelopeFaultMeans` | examples/adk-oac-sgp-agent/oacstream/proto.go:86-164 | an envelope is refused for a field or an event exactly if reading acceptable fields leaves it first |
| `Envelope.SameKnownSameMeaning` | examples/adk-oac-sgp-agent/oacstream/proto.go:96-150 | acceptance and meaning depend only on the known records and their order |
| `Envelope.UnknownFieldsIgnored` | examples/adk-oac-sgp-agent/oacstream/proto.go:140-150 | inserting unknown fields between complete fields changes neither acceptance nor meaning |
| `Envelope.UnknownEventBytesIgnored` | examples/adk-oac-sgp-agent/oacstream/proto.go:110-126 | inserting unknown fields inside an event changes neither acceptance nor meaning of the whole envelope |
| `Envelope.LaterEventReplaces` | examples/adk-oac-sgp-agent/oacstream/proto.go:110-126 | an event followed by a later one must be acceptable, and otherwise leaves no trace in acceptance or meaning |
| `Envelope.MarshalHarnessEnvelope` | examples/adk-oac-sgp-agent/oacstream/proto.go:57-84 | the encoded reply reads as field 1 with the session ID and field 2 with the body, the body as varint field 1 with the outcome and field 2 with any error message; missing parts are refused |

## Left out

- SessionGraph.Graph.ResumeNodes: asks that the climb ends (`Lineage.ClimbEndsIff`); the source has no cycle guard, and otherwise its loop does not end. Reachable graphs and accepted logs with distinct IDs always end it.
- SessionGraph.Graph.AdvanceHead: asks that the walk ends, for the same reason.
- StoreLoad.GetLineage: asks for a bound on the climbs that the reads allow, for the same reason; a faithful copy of a reachable graph has one.
- TopoLevels.LevelsInTimeOrderIff: asks for distinct timestamps, as do `TopoLevels.LastIsLatest` and `SgpdTheorems.HeadKeptIff`; with ties the condition is on the run's own way to break them (`Ties.RunLevelsIff`, `SgpdTheorems.HeadKeptByEveryRunIff`).
- Wire.RecordsConcat: the depth limit for nested groups of the protobuf library is not modelled, nor is its reading of anything beyond the Encoding guide.
- Sessions.FollowCursors: asks for distinct timestamps and a non-empty ID for every listed session; with ties two calls may work on different listings, and `Sessions.PagesShowAllIff` says that something can be missed.
- HarnessRuns.RunSession: store errors and a process killed between an append and its write are excluded, and a session is only taken over after a hand-off.
- WatchSession.NoGap: the snapshot is one moment, the read of the session's member list; the later reads of `LoadGraph` see nodes that never change, but its head and status may be newer. A stream whose load fails leaves.
- Pointer aliasing and the copy helpers (`pkg/sgp/graph.go:486-688`): messages and nodes are values, so nothing is said about a caller who changes a returned message.
- PubSub.SubscriptionSafety: takes each publish as one step, and so does `WatchSession`; `OverlappingPublishes.EachChannelSeesARun` shows that a channel cannot tell, while two channels may differ (`OverlappingPublishes.OverlapsMayDiffer`).
- WatchSession.StreamOrder: taking a node from the channel and sending it is one step; a failed send is a stream that leaves.
- Locks: each locked method is one atomic step.
- The quad store itself, JSON, RFC 3339 and float formatting: abstract, see above. Content text decoded under a kind it was not written for gives an empty content of that kind.
- The conversions of tool-call lists are sequence comprehensions instead of append loops.
- Session timestamps across `newHarness`: store and graph differ there by design of the code, and the model keeps both.
- HTTP, Connect, authentication, configuration, command-line handling and generated code: plumbing.
- `GetSessionGraph`, `GetResumeContext` and the other read-only handlers: thin wrappers over modelled reads.
- `examples/sgp-harness-bash`: the same loop as the math harness. `oac_mode.go`, the Ollama client and the tools: calls whose results are arbitrary.
- `codingagent`, `liveagent`, `sgpsession`: written against an interface no longer in `pkg/sgp`; rewrites and snapshots in the documents have no code behind them.
