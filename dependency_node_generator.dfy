/**
 * DependencyNodeGenerator.execute() as imperative code: the scan for the
 * largest annotation id, the synthesis loop over the annotations and their
 * dependencies updating the node table and the counter, and the emission
 * loop over the table. Each method is proved equal to its function in
 * DependencyNodeModel.
 */
module DependencyNodeGenerator {
  import opened Wrappers
  import opened DependencyNodeModel
  import DependencyNodeProofs

  /** The first pass: the largest annotation id, starting from 0. */
  method MaxAnnotationId(anns: seq<Annotation>) returns (uniqueID: int)
    ensures uniqueID == MaxId(anns)
  {
    uniqueID := 0;
    var i := 0;
    while i < |anns|
      invariant 0 <= i <= |anns|
      invariant uniqueID == MaxId(anns[..i])
    {
      assert anns[..i + 1][..i] == anns[..i];
      if uniqueID < anns[i].id {
        uniqueID := anns[i].id;
      }
      i := i + 1;
    }
    assert anns[..|anns|] == anns;
  }

  /**
   * The visit of one Token. `present` says whether currTokenFeats is the
   * table's own record (so that a put on one is a put on the other) or a
   * fresh local record that only the final put stores.
   */
  method VisitToken(table0: map<int, NodeRecord>, uniqueID0: int, tokenAno: Annotation)
    returns (table: map<int, NodeRecord>, uniqueID: int)
    ensures Synth(table, uniqueID) == TokenStep(Synth(table0, uniqueID0), tokenAno)
  {
    table, uniqueID := table0, uniqueID0;
    var tokenId := tokenAno.id;
    var present := tokenId in table;
    var currTokenFeats: NodeRecord;
    if !present {
      currTokenFeats := SourceRecord(uniqueID);
      uniqueID := uniqueID + 1;
    } else {
      currTokenFeats := table[tokenId];
    }
    currTokenFeats := currTokenFeats.(startNode := Some(tokenAno.start), endNode := Some(tokenAno.end), tokenId := Some(tokenId));
    if present {
      // currTokenFeats is the table entry: the puts above are visible there
      table := table[tokenId := currTokenFeats];
    }
    ghost var before := Synth(table, uniqueID);
    assert before == BeforeEdges(Synth(table0, uniqueID0), tokenAno);
    var dependencies := tokenAno.dependencies;
    var depIDList: seq<int> := [];
    var i := 0;
    while i < |dependencies|
      invariant 0 <= i <= |dependencies|
      invariant EdgesResult(Synth(table, uniqueID), depIDList) == Edges(before, dependencies[..i])
    {
      assert dependencies[..i + 1][..i] == dependencies[..i];
      var dep := dependencies[i];
      var dependentFeats: NodeRecord;
      if dep.targetId !in table {
        dependentFeats := TargetRecord(uniqueID, dep.relType);
        uniqueID := uniqueID + 1;
      } else {
        dependentFeats := table[dep.targetId].(cat := dep.relType);
      }
      depIDList := depIDList + [dependentFeats.id];
      table := table[dep.targetId := dependentFeats];
      i := i + 1;
    }
    assert dependencies[..|dependencies|] == dependencies;
    if present {
      // re-read the aliased entry: an edge to the token itself changed its "cat"
      currTokenFeats := table[tokenId];
    }
    if depIDList != [] {
      currTokenFeats := currTokenFeats.(consists := Some(depIDList));
    }
    table := table[tokenId := currTokenFeats];
  }

  /** The second pass: every Token annotation is visited, in traversal order. */
  method SynthesizeNodes(anns: seq<Annotation>, firstId: int) returns (table: map<int, NodeRecord>, uniqueID: int)
    ensures Synth(table, uniqueID) == Synthesize(Synth(map[], firstId), anns)
  {
    table, uniqueID := map[], firstId;
    var i := 0;
    while i < |anns|
      invariant 0 <= i <= |anns|
      invariant Synth(table, uniqueID) == Synthesize(Synth(map[], firstId), anns[..i])
    {
      assert anns[..i + 1][..i] == anns[..i];
      var ano := anns[i];
      if ano.annType == TokenType {
        table, uniqueID := VisitToken(table, uniqueID, ano);
      }
      i := i + 1;
    }
    assert anns[..|anns|] == anns;
  }

  /**
   * The emission pass: every record of the table, in an arbitrary order; one
   * with both offsets is handed to the annotation set, which takes it when
   * `accepts` says so and otherwise throws, which is caught; the loop goes on
   * either way. Records without offsets are skipped.
   */
  method EmitNodes(table: map<int, NodeRecord>, accepts: NodeAnnotation -> bool)
    returns (added: set<NodeAnnotation>, rejected: set<NodeAnnotation>)
    ensures Emission(added, rejected) == Emit(table, accepts)
  {
    added, rejected := {}, {};
    var todo := table.Keys;
    while todo != {}
      invariant todo <= table.Keys
      invariant added == AddedAmong(table, table.Keys - todo, accepts)
      invariant rejected == RejectedAmong(table, table.Keys - todo, accepts)
      decreases todo
    {
      NonEmptyHasKey(todo);
      var key :| key in todo;
      ghost var done := table.Keys - todo;
      DependencyNodeProofs.EmitOneMore(table, done, key, accepts);
      var feats := table[key];
      if feats.startNode.Some? && feats.endNode.Some? {
        var node := AsAnnotation(feats);
        if accepts(node) {
          added := added + {node};
        } else {
          rejected := rejected + {node};
        }
      }
      todo := todo - {key};
      assert table.Keys - todo == done + {key};
    }
  }

  /** Helper for the `:|` in `EmitNodes`: a non-empty key set has an element to visit next. */
  lemma NonEmptyHasKey(keys: set<int>)
    requires keys != {}
    ensures exists k :: k in keys
  {
    if forall k :: k !in keys {
      assert false;
    }
  }

  /**
   * execute(): a missing document is an error before anything is built;
   * otherwise the id scan, the synthesis pass and the emission pass.
   */
  method Execute(document: Option<seq<Annotation>>, accepts: NodeAnnotation -> bool)
    returns (r: Result<Run, string>)
    ensures document.None? ==> r == Failure(NoDocument)
    ensures document.Some? ==> r == Success(RunOn(document.value, accepts))
  {
    if document.None? {
      return Failure(NoDocument);
    }
    var anns := document.value;
    var uniqueID := MaxAnnotationId(anns);
    uniqueID := uniqueID + 1;
    var table;
    table, uniqueID := SynthesizeNodes(anns, uniqueID);
    var added, rejected := EmitNodes(table, accepts);
    r := Success(Run(table, Emission(added, rejected)));
  }
}
