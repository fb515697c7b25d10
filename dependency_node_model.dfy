/**
 * The dependency-node synthesis of DependencyNodeGenerator.execute() as
 * functions on values: annotations, the node table (token id -> feature
 * record) and the id counter. The imperative methods in
 * DependencyNodeGenerator are proved equal to these functions, and the
 * lemmas in DependencyNodeProofs state what the functions guarantee.
 */
module DependencyNodeModel {
  import opened Wrappers

  /** One entry of a token's "dependencies" feature: the target token and the relation type. */
  datatype DependencyRelation = DependencyRelation(targetId: int, relType: string)

  /**
   * An annotation of the document. Only annotations of type "Token" are read
   * for their offsets and dependencies; an absent "dependencies" feature is
   * the empty sequence (the source treats null and empty alike).
   */
  datatype Annotation = Annotation(
    id: int, annType: string, start: int, end: int, dependencies: seq<DependencyRelation>)

  /**
   * The feature map of one dependency node: "ID", "cat", "startNode",
   * "endNode" (as offsets), "TokenID" and "consists". A feature that was
   * never put is None.
   */
  datatype NodeRecord = NodeRecord(
    id: int, cat: string,
    startNode: Option<int>, endNode: Option<int>,
    tokenId: Option<int>, consists: Option<seq<int>>)

  /** The local state of one run: the table tokenToDepNode and the counter uniqueID. */
  datatype Synth = Synth(table: map<int, NodeRecord>, next: int)

  /** The state after a token's edges, and the ids collected in depIDList. */
  datatype EdgesResult = EdgesResult(state: Synth, ids: seq<int>)

  /** An annotation added to the output set: id, offsets, type and feature map. */
  datatype NodeAnnotation = NodeAnnotation(
    id: int, start: int, end: int, annType: string, features: NodeRecord)

  /** What emission handed to the annotation set: the insertions it took and those that threw. */
  datatype Emission = Emission(added: set<NodeAnnotation>, rejected: set<NodeAnnotation>)

  /** The outcome of a run on a document: the final node table and the emission. */
  datatype Run = Run(table: map<int, NodeRecord>, emission: Emission)

  const TokenType: string := "Token"
  const RootCat: string := "ROOT"
  const NodeType: string := "DependencyTreeNode"
  const NoDocument: string := "No document to process!"

  // ---------------------------------------------------------------- ID allocation

  /** The largest annotation id, or 0 when there is none larger: the first pass of execute(). */
  function MaxId(anns: seq<Annotation>): (m: int)
    ensures 0 <= m
    ensures forall i :: 0 <= i < |anns| ==> anns[i].id <= m
    ensures m == 0 || exists i :: 0 <= i < |anns| && anns[i].id == m
  {
    if anns == [] then 0
    else
      var m0 := MaxId(anns[..|anns| - 1]);
      var last := anns[|anns| - 1].id;
      if m0 < last then last else m0
  }

  /** The state before synthesis: an empty table and the counter just above every id. */
  function InitialState(anns: seq<Annotation>): Synth {
    Synth(map[], MaxId(anns) + 1)
  }

  // ---------------------------------------------------------------- synthesis

  /** The record made for an edge target that is not yet in the table. */
  function TargetRecord(id: int, relType: string): NodeRecord {
    NodeRecord(id, relType, None, None, None, None)
  }

  /** The record made for a token seen for the first time. */
  function SourceRecord(id: int): NodeRecord {
    NodeRecord(id, RootCat, None, None, None, None)
  }

  /**
   * One edge: get or create the target's record, overwrite its "cat" with the
   * relation type and put it back; the target's id is appended to depIDList.
   */
  function EdgeStep(s: Synth, dep: DependencyRelation): EdgesResult {
    if dep.targetId in s.table then
      var rec := s.table[dep.targetId].(cat := dep.relType);
      EdgesResult(Synth(s.table[dep.targetId := rec], s.next), [rec.id])
    else
      EdgesResult(Synth(s.table[dep.targetId := TargetRecord(s.next, dep.relType)], s.next + 1), [s.next])
  }

  /** The loop over a token's dependencies, in list order. */
  function Edges(s: Synth, deps: seq<DependencyRelation>): (r: EdgesResult)
    ensures s.table.Keys <= r.state.table.Keys
    ensures |r.ids| == |deps|
  {
    if deps == [] then EdgesResult(s, [])
    else
      var e := Edges(s, deps[..|deps| - 1]);
      var step := EdgeStep(e.state, deps[|deps| - 1]);
      EdgesResult(step.state, e.ids + step.ids)
  }

  /**
   * currTokenFeats after the offsets and TokenID are put: the table's own
   * record when the token is already there, a fresh record otherwise.
   */
  function Current(s: Synth, a: Annotation): NodeRecord {
    var base := if a.id in s.table then s.table[a.id] else SourceRecord(s.next);
    base.(startNode := Some(a.start), endNode := Some(a.end), tokenId := Some(a.id))
  }

  /**
   * The state the edge loop starts from. When the token is already in the
   * table, currTokenFeats IS the table entry, so the puts on it are visible
   * in the table; a fresh record is not in the table, but consumed an id.
   */
  function BeforeEdges(s: Synth, a: Annotation): Synth {
    if a.id in s.table then Synth(s.table[a.id := Current(s, a)], s.next)
    else Synth(s.table, s.next + 1)
  }

  /** The edge loop of a token. */
  function TokenEdges(s: Synth, a: Annotation): EdgesResult {
    Edges(BeforeEdges(s, a), a.dependencies)
  }

  /**
   * The record put under the token's id at the end of its visit. When the
   * token was already in the table, it is the (aliased) table entry as the
   * edges left it; otherwise it is the local record, and whatever an edge to
   * the token itself put under its id is overwritten. "consists" is replaced
   * only when at least one id was collected.
   */
  function FinalRecord(s: Synth, a: Annotation): NodeRecord {
    var e := TokenEdges(s, a);
    var rec := if a.id in s.table then e.state.table[a.id] else Current(s, a);
    if e.ids != [] then rec.(consists := Some(e.ids)) else rec
  }

  /** The visit of one Token annotation. */
  function TokenStep(s: Synth, a: Annotation): Synth {
    var e := TokenEdges(s, a);
    Synth(e.state.table[a.id := FinalRecord(s, a)], e.state.next)
  }

  /** One annotation of the second pass: only tokens are visited. */
  function Step(s: Synth, a: Annotation): Synth {
    if a.annType == TokenType then TokenStep(s, a) else s
  }

  /** The second pass over the annotations, in the given traversal order. */
  function Synthesize(s: Synth, anns: seq<Annotation>): Synth {
    if anns == [] then s
    else Step(Synthesize(s, anns[..|anns| - 1]), anns[|anns| - 1])
  }

  /** The node table and counter after the synthesis pass of a run. */
  function Synthesized(anns: seq<Annotation>): Synth {
    Synthesize(InitialState(anns), anns)
  }

  // ---------------------------------------------------------------- emission

  /** A record whose "startNode" and "endNode" are both set. */
  predicate HasSpan(r: NodeRecord) {
    r.startNode.Some? && r.endNode.Some?
  }

  /** The annotation that emission adds for a record with a span. */
  function AsAnnotation(r: NodeRecord): NodeAnnotation
    requires HasSpan(r)
  {
    NodeAnnotation(r.id, r.startNode.value, r.endNode.value, NodeType, r)
  }

  /** The insertions, among the records under `keys`, that the annotation set took. */
  function AddedAmong(table: map<int, NodeRecord>, keys: set<int>, accepts: NodeAnnotation -> bool): set<NodeAnnotation>
    requires keys <= table.Keys
  {
    set k | k in keys && HasSpan(table[k]) && accepts(AsAnnotation(table[k])) :: AsAnnotation(table[k])
  }

  /** The insertions, among the records under `keys`, that threw. */
  function RejectedAmong(table: map<int, NodeRecord>, keys: set<int>, accepts: NodeAnnotation -> bool): set<NodeAnnotation>
    requires keys <= table.Keys
  {
    set k | k in keys && HasSpan(table[k]) && !accepts(AsAnnotation(table[k])) :: AsAnnotation(table[k])
  }

  /** The emission pass over the whole table. */
  function Emit(table: map<int, NodeRecord>, accepts: NodeAnnotation -> bool): Emission {
    Emission(AddedAmong(table, table.Keys, accepts), RejectedAmong(table, table.Keys, accepts))
  }

  /** A whole run on a document given as its annotations in traversal order. */
  function RunOn(anns: seq<Annotation>, accepts: NodeAnnotation -> bool): Run {
    var s := Synthesized(anns);
    Run(s.table, Emit(s.table, accepts))
  }

  // ---------------------------------------------------------------- reference definitions

  /** The relation type of the last edge in `deps` that targets `k`, if any. */
  function LastRelTo(deps: seq<DependencyRelation>, k: int): Option<string> {
    if deps == [] then None
    else if deps[|deps| - 1].targetId == k then Some(deps[|deps| - 1].relType)
    else LastRelTo(deps[..|deps| - 1], k)
  }

  /** The category a record ends with after `deps`, starting from `prior`. */
  function CatAfter(deps: seq<DependencyRelation>, k: int, prior: string): string {
    LastRelTo(deps, k).GetOr(prior)
  }

  /** The last Token annotation with id `k` in traversal order, if any. */
  function LastToken(anns: seq<Annotation>, k: int): Option<Annotation> {
    if anns == [] then None
    else if anns[|anns| - 1].annType == TokenType && anns[|anns| - 1].id == k then Some(anns[|anns| - 1])
    else LastToken(anns[..|anns| - 1], k)
  }

  /** Every id in `ids` lies in [lo, hi). */
  predicate IdsIn(ids: seq<int>, lo: int, hi: int) {
    forall i :: 0 <= i < |ids| ==> lo <= ids[i] < hi
  }

  /**
   * The invariant of the synthesis state: every record id and every id in a
   * "consists" list was allocated by the counter (lies in [base, next)), and
   * records under distinct keys have distinct ids.
   */
  ghost predicate Inv(s: Synth, base: int) {
    base <= s.next &&
    (forall k :: k in s.table ==>
      base <= s.table[k].id < s.next &&
      (s.table[k].consists.Some? ==> IdsIn(s.table[k].consists.value, base, s.next))) &&
    (forall k1, k2 :: k1 in s.table && k2 in s.table && k1 != k2 ==> s.table[k1].id != s.table[k2].id)
  }
}
