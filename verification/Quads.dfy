/** Nodes and sessions as quads, and the text codec of reified weighted edges. */
module Quads {
  import opened Types

  // ----- quads -----

  /** The predicates of the store, one per "sgp:" IRI. */
  datatype Pred =
    | PSession | PTimestamp | PMessage | PStatus | PHead | PEndReason | PEndNode
    | PSpawnedFromSession | PSpawnedFromNode | PMember | PNodeKind | PArchived | PContent
    | PParent | PDistilledFrom | PAssociatedWith | PRecalledIn | PEvolvedFrom | PProceduralOf | PArchives | PBranchFrom
    | PWeight

  /**
   A quad value: an IRI or a string literal. The texts of times, messages, contents and weights
   are kept as what they encode.
   */
  datatype Value =
    | IRI(id: ID)
    | Text(s: string)
    | TimeText(t: Time)
    | MessageText(m: Message)
    | ContentText(c: Content)
    | WeightText(w: real)

  datatype Quad = Quad(subj: ID, pred: Pred, obj: Value, lbl: ID)

  const GLOBAL_SESSIONS := ID("sgp:sessions")
  const GLOBAL_LABEL := ID("sgp:global")
  const STATUS_OPEN := "open"
  const STATUS_CLOSED := "closed"

  function EdgeKindToPred(k: EdgeKind): Option<Pred> {
    if k == PARENT then Some(PParent)
    else if k == DISTILLED_FROM then Some(PDistilledFrom)
    else if k == ASSOCIATED_WITH then Some(PAssociatedWith)
    else if k == RECALLED_IN then Some(PRecalledIn)
    else if k == EVOLVED_FROM then Some(PEvolvedFrom)
    else if k == PROCEDURAL_OF then Some(PProceduralOf)
    else if k == ARCHIVES then Some(PArchives)
    else if k == BRANCH_FROM then Some(PBranchFrom)
    else None
  }

  /** The kind under which an edge predicate is read back. */
  function PredToEdgeKind(p: Pred): Option<EdgeKind> {
    match p
    case PParent => Some(PARENT)
    case PDistilledFrom => Some(DISTILLED_FROM)
    case PAssociatedWith => Some(ASSOCIATED_WITH)
    case PRecalledIn => Some(RECALLED_IN)
    case PEvolvedFrom => Some(EVOLVED_FROM)
    case PProceduralOf => Some(PROCEDURAL_OF)
    case PArchives => Some(ARCHIVES)
    case PBranchFrom => Some(BRANCH_FROM)
    case _ => None
  }

  /** The names of the stored kinds, each with a predicate of its own; edges of any other kind are not stored. */
  lemma EdgePredicates(k: EdgeKind, p: Pred)
    ensures EdgeKindToPred(k) == Some(p) <==> PredToEdgeKind(p) == Some(k)
    ensures EdgeKindToPred(k) == Some(p) <==>
      (k.name, p) in {("parent", PParent), ("distilled_from", PDistilledFrom), ("associated_with", PAssociatedWith),
                      ("recalled_in", PRecalledIn), ("evolved_from", PEvolvedFrom),
                      ("procedural_of", PProceduralOf), ("archives", PArchives), ("branch_from", PBranchFrom)}
  {
  }

  predicate IsWeightedEdge(k: EdgeKind) {
    k == ASSOCIATED_WITH || k == RECALLED_IN
  }

  /** An edge is reified when its kind is weighted and its weight is not zero. */
  predicate IsReified(e: EdgeRef) {
    IsWeightedEdge(e.kind) && e.weight != 0.0
  }

  // ----- the IRI of a reified edge -----

  function Join(a: string, b: string): string {
    a + ":" + b
  }

  const EDGE_PREFIX := "edge:"

  function EdgeIRI(n: ID, k: EdgeKind, target: ID): ID {
    ID(Join("edge", Join(n.text, Join(k.name, target.text))))
  }

  predicate ColonFree(s: string) {
    ':' !in s
  }

  function FirstColon(s: string): (i: nat)
    ensures i <= |s| && (i < |s| ==> s[i] == ':') && forall k :: 0 <= k < i ==> s[k] != ':'
  {
    if s == [] || s[0] == ':' then 0 else 1 + FirstColon(s[1..])
  }

  /** At most n pieces, cut at the first n - 1 colons. */
  function SplitN(s: string, n: nat): seq<string>
    requires n > 0
  {
    var i := FirstColon(s);
    if n == 1 || i == |s| then [s] else [s[..i]] + SplitN(s[i + 1..], n - 1)
  }

  lemma SplitJoin(a: string, b: string, n: nat)
    requires ColonFree(a) && n > 1
    ensures SplitN(Join(a, b), n) == [a] + SplitN(b, n - 1)
  {
    var s := Join(a, b);
    assert s[|a|] == ':';
    forall k | 0 <= k < |a| ensures s[k] != ':' {
      assert s[k] == a[k];
      assert a[k] in a;
    }
    assert FirstColon(s) == |a|;
    assert s[..|a|] == a && s[|a| + 1..] == b;
  }

  lemma EdgeColonFree()
    ensures ColonFree("edge")
  {
    assert ':' !in "edge";
  }

  lemma SplitOne(s: string)
    ensures SplitN(s, 1) == [s]
  {
  }

  /** With a colon-free node ID the edge IRI splits back into its four parts, whatever the target. */
  lemma EdgeIRISplits(n: ID, k: EdgeKind, target: ID)
    requires ColonFree(n.text) && EdgeKindToPred(k).Some?
    ensures SplitN(EdgeIRI(n, k, target).text, 4) == ["edge", n.text, k.name, target.text]
  {
    hide SplitN, ColonFree, EdgeKindToPred;
    var tail, middle := Join(k.name, target.text), Join(n.text, Join(k.name, target.text));
    EdgeColonFree();
    SplitJoin("edge", middle, 4);
    SplitJoin(n.text, tail, 3);
    KindColonFree(k);
    SplitJoin(k.name, target.text, 2);
    SplitOne(target.text);
    assert SplitN(tail, 2) == [k.name, target.text];
    assert SplitN(middle, 3) == [n.text, k.name, target.text];
  }

  lemma KindColonFree(k: EdgeKind)
    requires EdgeKindToPred(k).Some?
    ensures ColonFree(k.name)
  {
    if k == PARENT { assert ':' !in "parent"; }
    else if k == DISTILLED_FROM { assert ':' !in "distilled_from"; }
    else if k == ASSOCIATED_WITH { assert ':' !in "associated_with"; }
    else if k == RECALLED_IN { assert ':' !in "recalled_in"; }
    else if k == EVOLVED_FROM { assert ':' !in "evolved_from"; }
    else if k == PROCEDURAL_OF { assert ':' !in "procedural_of"; }
    else if k == ARCHIVES { assert ':' !in "archives"; }
    else { assert ':' !in "branch_from"; }
  }

  lemma EdgeIRIInjective(n: ID, k: EdgeKind, t: ID, n': ID, k': EdgeKind, t': ID)
    requires ColonFree(n.text) && ColonFree(n'.text) && EdgeKindToPred(k).Some? && EdgeKindToPred(k').Some?
    requires EdgeIRI(n, k, t) == EdgeIRI(n', k', t')
    ensures n == n' && k == k' && t == t'
  {
    EdgeIRISplits(n, k, t);
    EdgeIRISplits(n', k', t');
    var s, s' := SplitN(EdgeIRI(n, k, t).text, 4), SplitN(EdgeIRI(n', k', t').text, 4);
    assert s[1] == n.text && s[2] == k.name && s[3] == t.text;
    assert s'[1] == n'.text && s'[2] == k'.name && s'[3] == t'.text;
  }

  predicate HasEdgePrefix(s: string) {
    EDGE_PREFIX <= s
  }

  lemma EdgeIRIHasPrefix(n: ID, k: EdgeKind, target: ID)
    ensures HasEdgePrefix(EdgeIRI(n, k, target).text)
    ensures ColonFree(n.text) ==> EdgeIRI(n, k, target) != n
  {
    var s := EdgeIRI(n, k, target).text;
    assert s == EDGE_PREFIX + Join(n.text, Join(k.name, target.text));
    assert s[4] == ':' && ':' in s;
  }

  // ----- a node's quads -----

  function NodeContent(n: Node): Content {
    if n.memory.Some? then MemoryC(n.memory.value)
    else if n.skill.Some? then SkillC(n.skill.value)
    else if n.identity.Some? then IdentityC(n.identity.value)
    else if n.sleep.Some? then SleepC(n.sleep.value)
    else NoContent
  }

  function BaseQuads(n: Node): seq<Quad> {
    [Quad(n.id, PSession, IRI(n.sessionID), n.sessionID),
     Quad(n.id, PTimestamp, TimeText(n.timestamp), n.sessionID),
     Quad(n.id, PMessage, MessageText(n.message), n.sessionID)]
    + (if n.kind != "" then [Quad(n.id, PNodeKind, Text(n.kind), n.sessionID)] else [])
    + (if n.archived then [Quad(n.id, PArchived, Text("true"), n.sessionID)] else [])
    + (if NodeContent(n).NoContent? then [] else [Quad(n.id, PContent, ContentText(NodeContent(n)), n.sessionID)])
  }

  function EdgeQuads(n: Node, e: EdgeRef): seq<Quad> {
    match EdgeKindToPred(e.kind)
    case None => []
    case Some(p) =>
      if IsReified(e) then
        var iri := EdgeIRI(n.id, e.kind, e.nodeID);
        [Quad(n.id, p, IRI(iri), n.sessionID), Quad(iri, PWeight, WeightText(e.weight), n.sessionID)]
      else [Quad(n.id, p, IRI(e.nodeID), n.sessionID)]
  }

  function AllEdgeQuads(n: Node, k: nat): seq<Quad>
    requires k <= |n.edges|
  {
    if k == 0 then [] else AllEdgeQuads(n, k - 1) + EdgeQuads(n, n.edges[k - 1])
  }

  function NodeQuads(n: Node): seq<Quad> {
    BaseQuads(n) + AllEdgeQuads(n, |n.edges|)
  }

  lemma {:induction false} EdgeQuadOrigin(n: Node, k: nat, q: Quad)
    requires k <= |n.edges|
    ensures q in AllEdgeQuads(n, k) <==> exists i :: 0 <= i < k && q in EdgeQuads(n, n.edges[i])
  {
    if k > 0 {
      EdgeQuadOrigin(n, k - 1, q);
    }
  }

  // ----- deltas -----

  datatype Delta = Add(quad: Quad) | Delete(quad: Quad)

  function Adds(quads: seq<Quad>): seq<Delta> {
    seq(|quads|, i requires 0 <= i < |quads| => Add(quads[i]))
  }

  method NodeToDeltas(n: Node) returns (deltas: seq<Delta>)
    ensures deltas == Adds(NodeQuads(n))
  {
    deltas := [Add(Quad(n.id, PSession, IRI(n.sessionID), n.sessionID)),
               Add(Quad(n.id, PTimestamp, TimeText(n.timestamp), n.sessionID)),
               Add(Quad(n.id, PMessage, MessageText(n.message), n.sessionID))];
    if n.kind != "" {
      deltas := deltas + [Add(Quad(n.id, PNodeKind, Text(n.kind), n.sessionID))];
    }
    if n.archived {
      deltas := deltas + [Add(Quad(n.id, PArchived, Text("true"), n.sessionID))];
    }
    var content := NodeContent(n);
    if !content.NoContent? {
      deltas := deltas + [Add(Quad(n.id, PContent, ContentText(content), n.sessionID))];
    }
    assert deltas == Adds(BaseQuads(n));
    for i := 0 to |n.edges|
      invariant deltas == Adds(BaseQuads(n) + AllEdgeQuads(n, i))
    {
      var added := EdgeDeltas(n, n.edges[i]);
      AddsConcat(BaseQuads(n) + AllEdgeQuads(n, i), EdgeQuads(n, n.edges[i]));
      assert BaseQuads(n) + AllEdgeQuads(n, i + 1) == (BaseQuads(n) + AllEdgeQuads(n, i)) + EdgeQuads(n, n.edges[i]);
      deltas := deltas + added;
    }
  }

  method EdgeDeltas(n: Node, e: EdgeRef) returns (deltas: seq<Delta>)
    ensures deltas == Adds(EdgeQuads(n, e))
  {
    var pred := EdgeKindToPred(e.kind);
    if pred.None? { return []; }
    if IsWeightedEdge(e.kind) && e.weight != 0.0 {
      var iri := EdgeIRI(n.id, e.kind, e.nodeID);
      deltas := [Add(Quad(n.id, pred.value, IRI(iri), n.sessionID)),
        Add(Quad(iri, PWeight, WeightText(e.weight), n.sessionID))];
    } else {
      deltas := [Add(Quad(n.id, pred.value, IRI(e.nodeID), n.sessionID))];
    }
  }

  lemma AddsConcat(a: seq<Quad>, b: seq<Quad>)
    ensures Adds(a + b) == Adds(a) + Adds(b)
  {
  }

  function SessionQuads(s: Session): seq<Quad> {
    [Quad(s.id, PTimestamp, TimeText(s.timestamp), s.id), Quad(s.id, PStatus, Text(STATUS_OPEN), s.id)]
    + (match s.spawnedFrom
       case None => []
       case Some(r) => [Quad(s.id, PSpawnedFromSession, IRI(r.sessionID), s.id),
         Quad(s.id, PSpawnedFromNode, IRI(r.nodeID), s.id)])
  }

  // ----- applying deltas atomically -----

  function ApplyAll(quads: set<Quad>, deltas: seq<Delta>): set<Quad> {
    if deltas == [] then quads
    else
      match deltas[|deltas| - 1]
      case Add(q) => ApplyAll(quads, deltas[..|deltas| - 1]) + {q}
      case Delete(q) => ApplyAll(quads, deltas[..|deltas| - 1]) - {q}
  }

  lemma {:induction false} ApplyConcat(quads: set<Quad>, a: seq<Delta>, b: seq<Delta>)
    ensures ApplyAll(quads, a + b) == ApplyAll(ApplyAll(quads, a), b)
  {
    if b == [] {
      assert a + b == a;
    } else {
      assert (a + b)[..|a + b| - 1] == a + b[..|b| - 1];
      ApplyConcat(quads, a, b[..|b| - 1]);
    }
  }

  lemma {:induction false} ApplyAdds(quads: set<Quad>, added: seq<Quad>, q: Quad)
    ensures q in ApplyAll(quads, Adds(added)) <==> q in quads || q in added
  {
    if added != [] {
      var m := |added| - 1;
      assert Adds(added)[..m] == Adds(added[..m]);
      ApplyAdds(quads, added[..m], q);
      assert added == added[..m] + [added[m]];
    }
  }
}
