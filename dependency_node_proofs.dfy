/**
 * What the dependency-node synthesis guarantees, proved about the functions
 * of DependencyNodeModel.
 */
module DependencyNodeProofs {
  import opened Wrappers
  import opened DependencyNodeModel

  /** The keys an edge loop targets. */
  function Targets(deps: seq<DependencyRelation>): set<int> {
    set i | 0 <= i < |deps| :: deps[i].targetId
  }

  /** One edge: what EdgeStep changes in the table and the counter. */
  lemma EdgeStepShape(s: Synth, d: DependencyRelation)
    ensures var r := EdgeStep(s, d);
      && r.state.table.Keys == s.table.Keys + {d.targetId}
      && r.ids == [r.state.table[d.targetId].id]
      && (if d.targetId in s.table then r.state.next == s.next
          else r.state.next == s.next + 1 && r.state.table[d.targetId] == TargetRecord(s.next, d.relType))
      && (forall k :: k in s.table ==> r.state.table[k] == s.table[k].(cat := r.state.table[k].cat))
      && (forall k :: k in s.table && k != d.targetId ==> r.state.table[k] == s.table[k])
  {
  }

  /** The edge loop adds exactly the edge targets as keys. */
  lemma {:induction false} EdgesKeys(s: Synth, deps: seq<DependencyRelation>)
    ensures Edges(s, deps).state.table.Keys == s.table.Keys + Targets(deps)
  {
    if deps != [] {
      var p := deps[..|deps| - 1];
      var d := deps[|deps| - 1];
      EdgesKeys(s, p);
      EdgeStepShape(Edges(s, p).state, d);
      TargetsSnoc(deps);
    }
  }

  /** The targets of a list of edges: those of all but the last, and the last one's. */
  lemma TargetsSnoc(deps: seq<DependencyRelation>)
    requires deps != []
    ensures Targets(deps) == Targets(deps[..|deps| - 1]) + {deps[|deps| - 1].targetId}
  {
    var p := deps[..|deps| - 1];
    forall t | t in Targets(deps) ensures t in Targets(p) + {deps[|deps| - 1].targetId} {
      var i :| 0 <= i < |deps| && deps[i].targetId == t;
      if i < |p| { assert p[i] == deps[i]; }
    }
    forall t | t in Targets(p) ensures t in Targets(deps) {
      var i :| 0 <= i < |p| && p[i].targetId == t;
      assert deps[i] == p[i];
    }
  }

  /**
   * The edge loop changes only "cat" of a record already present, and every
   * record it creates is a fresh target record: an id from the counter, no
   * offsets, no TokenID, no "consists".
   */
  lemma {:induction false} EdgesKeep(s: Synth, deps: seq<DependencyRelation>)
    ensures var e := Edges(s, deps);
      && s.next <= e.state.next
      && (forall k :: k in s.table ==> e.state.table[k] == s.table[k].(cat := e.state.table[k].cat))
      && (forall k :: k in e.state.table && k !in s.table ==>
            s.next <= e.state.table[k].id < e.state.next &&
            e.state.table[k] == TargetRecord(e.state.table[k].id, e.state.table[k].cat))
  {
    if deps != [] {
      var p := deps[..|deps| - 1];
      var d := deps[|deps| - 1];
      EdgesKeep(s, p);
      EdgeStepShape(Edges(s, p).state, d);
    }
  }

  /**
   * The ids collected by the edge loop: one per edge, in list order, each the
   * id of that edge's target record once the loop is over.
   */
  lemma {:induction false} EdgesIds(s: Synth, deps: seq<DependencyRelation>)
    ensures var e := Edges(s, deps);
      && |e.ids| == |deps|
      && forall i :: 0 <= i < |deps| ==>
           deps[i].targetId in e.state.table && e.ids[i] == e.state.table[deps[i].targetId].id
  {
    if deps != [] {
      var p := deps[..|deps| - 1];
      var d := deps[|deps| - 1];
      EdgesIds(s, p);
      var e1 := Edges(s, p);
      var e := Edges(s, deps);
      EdgeStepShape(e1.state, d);
      forall i | 0 <= i < |deps|
        ensures deps[i].targetId in e.state.table && e.ids[i] == e.state.table[deps[i].targetId].id
      {
        if i < |p| {
          assert deps[i] == p[i];
          assert e.ids[i] == e1.ids[i];
        }
      }
    }
  }

  /** The category each key ends the edge loop with: the last edge to it wins. */
  lemma {:induction false} EdgesCat(s: Synth, deps: seq<DependencyRelation>)
    ensures var t := Edges(s, deps).state.table;
      forall k :: k in t ==>
        if k in s.table then t[k].cat == CatAfter(deps, k, s.table[k].cat)
        else LastRelTo(deps, k).Some? && t[k].cat == LastRelTo(deps, k).value
  {
    if deps != [] {
      var p := deps[..|deps| - 1];
      EdgesCat(s, p);
    }
  }

  /** One edge keeps the invariant, and the id it collects was allocated. */
  lemma EdgeStepInv(s: Synth, d: DependencyRelation, base: int)
    requires Inv(s, base)
    ensures Inv(EdgeStep(s, d).state, base)
    ensures IdsIn(EdgeStep(s, d).ids, base, EdgeStep(s, d).state.next)
  {
    EdgeStepShape(s, d);
  }

  /** The edge loop keeps the invariant, and every collected id was allocated. */
  lemma {:induction false} EdgesInv(s: Synth, deps: seq<DependencyRelation>, base: int)
    requires Inv(s, base)
    ensures Inv(Edges(s, deps).state, base)
    ensures IdsIn(Edges(s, deps).ids, base, Edges(s, deps).state.next)
  {
    if deps != [] {
      var p := deps[..|deps| - 1];
      var d := deps[|deps| - 1];
      EdgesInv(s, p, base);
      var e1 := Edges(s, p);
      EdgeStepInv(e1.state, d, base);
      EdgeStepShape(e1.state, d);
      var e := Edges(s, deps);
      forall i | 0 <= i < |e.ids| ensures base <= e.ids[i] < e.state.next {
        if i < |e1.ids| { assert e.ids[i] == e1.ids[i]; }
      }
    }
  }

  /** The state before the edge loop satisfies the invariant when the state before the token does. */
  lemma BeforeEdgesInv(s: Synth, a: Annotation, base: int)
    requires Inv(s, base)
    ensures Inv(BeforeEdges(s, a), base)
  {
  }

  /** Visiting a token keeps the invariant: ids stay allocated and distinct. */
  lemma TokenStepInv(s: Synth, a: Annotation, base: int)
    requires Inv(s, base)
    ensures Inv(TokenStep(s, a), base)
  {
    var b := BeforeEdges(s, a);
    BeforeEdgesInv(s, a, base);
    EdgesInv(b, a.dependencies, base);
    EdgesKeep(b, a.dependencies);
    var e := TokenEdges(s, a);
    var fin := FinalRecord(s, a);
    var t := TokenStep(s, a);
    assert base <= fin.id < t.next;
    assert fin.consists.Some? ==> IdsIn(fin.consists.value, base, t.next);
    forall k | k in e.state.table && k != a.id ensures e.state.table[k].id != fin.id {
      if a.id in s.table {
        assert fin.id == e.state.table[a.id].id;
      } else {
        assert fin.id == s.next;
        if k in s.table {
          assert e.state.table[k].id == s.table[k].id;
        }
      }
    }
  }

  /**
   * The record under a token's id after its visit. A token seen for the first
   * time gets the next id and "cat" ROOT; a token already in the table keeps
   * its id, and its "cat" changes only through an edge to itself (the last
   * one wins). Both get the token's offsets and TokenID. "consists" becomes
   * the collected ids when the token has edges, and is left as it was
   * otherwise.
   */
  lemma TokenStepRecord(s: Synth, a: Annotation)
    ensures var r := TokenStep(s, a).table;
      var ids := TokenEdges(s, a).ids;
      && a.id in r
      && r[a.id].id == (if a.id in s.table then s.table[a.id].id else s.next)
      && r[a.id].cat == (if a.id in s.table then CatAfter(a.dependencies, a.id, s.table[a.id].cat) else RootCat)
      && r[a.id].startNode == Some(a.start)
      && r[a.id].endNode == Some(a.end)
      && r[a.id].tokenId == Some(a.id)
      && |ids| == |a.dependencies|
      && r[a.id].consists == (if a.dependencies != [] then Some(ids)
                              else if a.id in s.table then s.table[a.id].consists
                              else None)
  {
    var b := BeforeEdges(s, a);
    EdgesKeep(b, a.dependencies);
    EdgesCat(b, a.dependencies);
    EdgesIds(b, a.dependencies);
  }

  /**
   * The records under the other keys after a token's visit: a record already
   * present changes only its "cat", to the relation type of the last edge
   * that targets it; a new key is an edge target with a fresh id and that
   * relation type as "cat". The keys added are the token and its targets.
   */
  lemma TokenStepOthers(s: Synth, a: Annotation)
    ensures var t := TokenStep(s, a);
      && t.table.Keys == s.table.Keys + {a.id} + Targets(a.dependencies)
      && s.next <= t.next
      && forall k :: k in t.table && k != a.id ==>
           if k in s.table then t.table[k] == s.table[k].(cat := CatAfter(a.dependencies, k, s.table[k].cat))
           else && LastRelTo(a.dependencies, k).Some?
                && t.table[k] == TargetRecord(t.table[k].id, LastRelTo(a.dependencies, k).value)
                && s.next <= t.table[k].id < t.next
  {
    var b := BeforeEdges(s, a);
    EdgesKeys(b, a.dependencies);
    EdgesKeep(b, a.dependencies);
    EdgesCat(b, a.dependencies);
  }

  /**
   * "consists" lists the targets' ids in the order of the token's
   * dependencies: each collected id is the id its target's record has after
   * the visit, except for an edge from a token to itself on the token's
   * first visit (see FirstVisitSelfEdgeOrphan).
   */
  lemma TokenStepIds(s: Synth, a: Annotation)
    ensures var r := TokenStep(s, a).table;
      var ids := TokenEdges(s, a).ids;
      && |ids| == |a.dependencies|
      && forall i :: 0 <= i < |a.dependencies| && (a.id in s.table || a.dependencies[i].targetId != a.id) ==>
           a.dependencies[i].targetId in r && ids[i] == r[a.dependencies[i].targetId].id
  {
    var b := BeforeEdges(s, a);
    EdgesIds(b, a.dependencies);
    EdgesKeep(b, a.dependencies);
  }

  /**
   * An edge from a token to itself on its first visit puts a second record
   * under the token's id, which the end of the visit overwrites: the id
   * collected for that edge is the id of no record in the table.
   */
  lemma FirstVisitSelfEdgeOrphan(s: Synth, a: Annotation, base: int, i: int)
    requires Inv(s, base)
    requires a.id !in s.table
    requires 0 <= i < |a.dependencies| && a.dependencies[i].targetId == a.id
    ensures var r := TokenStep(s, a).table;
      forall k :: k in r ==> r[k].id != TokenEdges(s, a).ids[i]
  {
    var b := BeforeEdges(s, a);
    BeforeEdgesInv(s, a, base);
    EdgesInv(b, a.dependencies, base);
    EdgesKeep(b, a.dependencies);
    EdgesIds(b, a.dependencies);
    var e := TokenEdges(s, a);
    var x := e.ids[i];
    assert x == e.state.table[a.id].id;
    assert s.next < x;
  }

  // ---------------------------------------------------------------- the synthesis pass

  /** One annotation of the second pass keeps the invariant. */
  lemma StepInv(s: Synth, a: Annotation, base: int)
    requires Inv(s, base)
    ensures Inv(Step(s, a), base)
  {
    if a.annType == TokenType { TokenStepInv(s, a, base); }
  }

  /** The second pass keeps the invariant. */
  lemma {:induction false} SynthesizeInv(s: Synth, anns: seq<Annotation>, base: int)
    requires Inv(s, base)
    ensures Inv(Synthesize(s, anns), base)
  {
    if anns != [] {
      SynthesizeInv(s, anns[..|anns| - 1], base);
      StepInv(Synthesize(s, anns[..|anns| - 1]), anns[|anns| - 1], base);
    }
  }

  /**
   * Every node id, and every id in a "consists" list, is larger than the id
   * of every annotation of the annotation set that is scanned, Token or not; and records under
   * distinct token ids have distinct ids.
   */
  lemma FreshDistinctIds(anns: seq<Annotation>)
    ensures var t := Synthesized(anns).table;
      && (forall k, i :: k in t && 0 <= i < |anns| ==> anns[i].id < t[k].id)
      && (forall k, j, i :: k in t && t[k].consists.Some? && 0 <= j < |t[k].consists.value| && 0 <= i < |anns| ==>
            anns[i].id < t[k].consists.value[j])
      && (forall k1, k2 :: k1 in t && k2 in t && k1 != k2 ==> t[k1].id != t[k2].id)
  {
    SynthesizeInv(InitialState(anns), anns, MaxId(anns) + 1);
  }

  /** Once a key is in the table, its record keeps its id through every later visit. */
  lemma {:induction false} IdsNeverChange(s: Synth, anns: seq<Annotation>)
    ensures var t := Synthesize(s, anns).table;
      forall k :: k in s.table ==> k in t && t[k].id == s.table[k].id
  {
    if anns != [] {
      var p := anns[..|anns| - 1];
      var a := anns[|anns| - 1];
      IdsNeverChange(s, p);
      if a.annType == TokenType {
        TokenStepRecord(Synthesize(s, p), a);
        TokenStepOthers(Synthesize(s, p), a);
      }
    }
  }

  /** The pass over `p + q` is the pass over `q` after the pass over `p`. */
  lemma {:induction false} SynthesizeAppend(s: Synth, p: seq<Annotation>, q: seq<Annotation>)
    ensures Synthesize(s, p + q) == Synthesize(Synthesize(s, p), q)
  {
    if q == [] {
      assert p + q == p;
    } else {
      assert (p + q)[..|p + q| - 1] == p + q[..|q| - 1];
      SynthesizeAppend(s, p, q[..|q| - 1]);
    }
  }

  /** A pass over annotations none of which is a Token changes nothing. */
  lemma {:induction false} SynthesizeNoTokens(s: Synth, anns: seq<Annotation>)
    requires forall i :: 0 <= i < |anns| ==> anns[i].annType != TokenType
    ensures Synthesize(s, anns) == s
  {
    if anns != [] {
      SynthesizeNoTokens(s, anns[..|anns| - 1]);
    }
  }

  /** After the annotations up to and including the first Token, that Token holds the first allocated id. */
  lemma FirstTokenPrefix(s: Synth, anns: seq<Annotation>, i: int)
    requires s.table == map[]
    requires 0 <= i < |anns| && anns[i].annType == TokenType
    requires forall j :: 0 <= j < i ==> anns[j].annType != TokenType
    ensures var mid := Synthesize(s, anns[..i + 1]);
      anns[i].id in mid.table && mid.table[anns[i].id].id == s.next
  {
    var p := anns[..i + 1];
    SynthesizeNoTokens(s, anns[..i]);
    assert p[..i] == anns[..i];
    assert Synthesize(s, p) == Step(Synthesize(s, anns[..i]), anns[i]);
    TokenStepRecord(s, anns[i]);
  }

  /** The first Token in traversal order gets the first allocated id, one above the largest existing id. */
  lemma FirstTokenId(anns: seq<Annotation>, i: int)
    requires 0 <= i < |anns| && anns[i].annType == TokenType
    requires forall j :: 0 <= j < i ==> anns[j].annType != TokenType
    ensures anns[i].id in Synthesized(anns).table
    ensures Synthesized(anns).table[anns[i].id].id == MaxId(anns) + 1
  {
    FirstTokenGetsNext(anns, i);
  }

  /** The first Token in traversal order gets the counter's starting value as its id. */
  lemma FirstTokenGetsNext(anns: seq<Annotation>, i: int)
    requires 0 <= i < |anns| && anns[i].annType == TokenType
    requires forall j :: 0 <= j < i ==> anns[j].annType != TokenType
    ensures anns[i].id in Synthesized(anns).table
    ensures Synthesized(anns).table[anns[i].id].id == InitialState(anns).next
  {
    var init := InitialState(anns);
    FirstTokenPrefix(init, anns, i);
    IdKeptAfter(init, anns, i + 1, anns[i].id);
  }

  /** A key in the table after the first `n` annotations stays, with its id, after all of them. */
  lemma IdKeptAfter(s: Synth, anns: seq<Annotation>, n: nat, k: int)
    requires n <= |anns| && k in Synthesize(s, anns[..n]).table
    ensures k in Synthesize(s, anns).table && Synthesize(s, anns).table[k].id == Synthesize(s, anns[..n]).table[k].id
  {
    SynthesizeAppend(s, anns[..n], anns[n..]);
    assert anns[..n] + anns[n..] == anns;
    IdsNeverChange(Synthesize(s, anns[..n]), anns[n..]);
  }

  /** A key the annotation introduces: a Token's own id or one of its targets. */
  predicate Mentions(a: Annotation, k: int) {
    a.annType == TokenType && (a.id == k || k in Targets(a.dependencies))
  }

  /** The keys of the table are the given ones, the Token ids and the targets of Token edges; nothing else. */
  lemma {:induction false} SynthesizeKeys(s: Synth, anns: seq<Annotation>)
    ensures var t := Synthesize(s, anns).table;
      forall k :: k in t <==> k in s.table || exists i :: 0 <= i < |anns| && Mentions(anns[i], k)
  {
    if anns != [] {
      var p := anns[..|anns| - 1];
      var a := anns[|anns| - 1];
      var prev := Synthesize(s, p);
      assert forall k :: k in Synthesize(s, anns).table <==> k in prev.table || Mentions(a, k) by {
        if a.annType == TokenType { TokenStepOthers(prev, a); }
      }
      SynthesizeKeys(s, p);
      forall k ensures (exists i :: 0 <= i < |anns| && Mentions(anns[i], k)) <==>
        (exists i :: 0 <= i < |p| && Mentions(p[i], k)) || Mentions(a, k) {
        MentionedSnoc(anns, k);
      }
    }
  }

  /** A key is mentioned by a list of annotations when all but the last, or the last, mention it. */
  lemma MentionedSnoc(anns: seq<Annotation>, k: int)
    requires anns != []
    ensures var p := anns[..|anns| - 1];
      (exists i :: 0 <= i < |anns| && Mentions(anns[i], k)) <==>
      (exists i :: 0 <= i < |p| && Mentions(p[i], k)) || Mentions(anns[|anns| - 1], k)
  {
    var p := anns[..|anns| - 1];
    if exists i :: 0 <= i < |anns| && Mentions(anns[i], k) {
      var i :| 0 <= i < |anns| && Mentions(anns[i], k);
      if i < |p| { assert Mentions(p[i], k); }
    }
    if exists i :: 0 <= i < |p| && Mentions(p[i], k) {
      var i :| 0 <= i < |p| && Mentions(p[i], k);
      assert Mentions(anns[i], k);
    }
  }

  /** The offsets and TokenID of a record: the features that only a token's own visit sets. */
  function SpanOf(r: NodeRecord): (Option<int>, Option<int>, Option<int>) {
    (r.startNode, r.endNode, r.tokenId)
  }

  /**
   * The offsets and TokenID of every record after the pass: those of the last
   * Token with that id, or, for a key no Token has, those it had before (none
   * for a key added as an edge target only).
   */
  lemma {:induction false} SynthesizeSpans(s: Synth, anns: seq<Annotation>)
    ensures var t := Synthesize(s, anns).table;
      && s.table.Keys <= t.Keys
      && (forall k :: LastToken(anns, k).Some? ==> k in t)
      && forall k :: k in t ==>
           SpanOf(t[k]) == match LastToken(anns, k)
             case Some(a) => (Some(a.start), Some(a.end), Some(k))
             case None => if k in s.table then SpanOf(s.table[k]) else (None, None, None)
  {
    if anns != [] {
      var p := anns[..|anns| - 1];
      var a := anns[|anns| - 1];
      SynthesizeSpans(s, p);
      if a.annType == TokenType {
        TokenStepRecord(Synthesize(s, p), a);
        TokenStepOthers(Synthesize(s, p), a);
      }
    }
  }

  // ---------------------------------------------------------------- emission

  /** LastToken finds a Token with the id exactly when there is one, and no later Token has that id. */
  lemma {:induction false} LastTokenSpec(anns: seq<Annotation>, k: int)
    ensures LastToken(anns, k).Some? <==>
      exists i :: 0 <= i < |anns| && anns[i].annType == TokenType && anns[i].id == k
    ensures LastToken(anns, k).Some? ==>
      exists i :: 0 <= i < |anns| && anns[i] == LastToken(anns, k).value && anns[i].annType == TokenType && anns[i].id == k &&
        forall j :: i < j < |anns| ==> !(anns[j].annType == TokenType && anns[j].id == k)
  {
    if anns != [] {
      var p := anns[..|anns| - 1];
      LastTokenSpec(p, k);
      if LastToken(anns, k) == LastToken(p, k) && LastToken(p, k).Some? {
        var i :| 0 <= i < |p| && p[i] == LastToken(p, k).value && p[i].annType == TokenType && p[i].id == k &&
          forall j :: i < j < |p| ==> !(p[j].annType == TokenType && p[j].id == k);
        assert anns[i] == p[i];
      }
      if exists i :: 0 <= i < |anns| && anns[i].annType == TokenType && anns[i].id == k {
        var i :| 0 <= i < |anns| && anns[i].annType == TokenType && anns[i].id == k;
        if i < |p| { assert p[i] == anns[i]; }
      }
    }
  }

  /**
   * Completeness: every Token of the document yields a node with a span,
   * which emission hands to the annotation set (taken or rejected); its
   * offsets are those of the last Token with that id.
   */
  lemma SourcesEmitted(anns: seq<Annotation>, accepts: NodeAnnotation -> bool)
    ensures var run := RunOn(anns, accepts);
      forall i :: 0 <= i < |anns| && anns[i].annType == TokenType ==>
        && anns[i].id in run.table
        && HasSpan(run.table[anns[i].id])
        && AsAnnotation(run.table[anns[i].id]) in run.emission.added + run.emission.rejected
        && LastToken(anns, anns[i].id).Some?
        && run.table[anns[i].id].startNode == Some(LastToken(anns, anns[i].id).value.start)
        && run.table[anns[i].id].endNode == Some(LastToken(anns, anns[i].id).value.end)
  {
    SynthesizeSpans(InitialState(anns), anns);
    forall i | 0 <= i < |anns| && anns[i].annType == TokenType ensures LastToken(anns, anns[i].id).Some? {
      LastTokenSpec(anns, anns[i].id);
    }
  }

  /** Dangling targets: a key that no Token has gets no span, so emission skips it. */
  lemma DanglingTargetsSkipped(anns: seq<Annotation>)
    ensures var t := Synthesized(anns).table;
      forall k :: k in t && (forall i :: 0 <= i < |anns| ==> !(anns[i].annType == TokenType && anns[i].id == k)) ==>
        !HasSpan(t[k])
  {
    SynthesizeSpans(InitialState(anns), anns);
    forall k | k in Synthesized(anns).table && (forall i :: 0 <= i < |anns| ==> !(anns[i].annType == TokenType && anns[i].id == k))
      ensures LastToken(anns, k).None?
    {
      LastTokenSpec(anns, k);
    }
  }

  /**
   * Every emitted annotation is a DependencyTreeNode for a Token of the
   * document: its id is its "ID" feature, its TokenID names a Token, and its
   * offsets are those of the last Token with that id. No two emitted
   * annotations have the same TokenID or the same id.
   */
  lemma EmittedAreSources(anns: seq<Annotation>, accepts: NodeAnnotation -> bool)
    ensures var em := RunOn(anns, accepts).emission;
      && (forall x :: x in em.added + em.rejected ==>
            && x.annType == NodeType
            && x.id == x.features.id
            && x.features.tokenId.Some?
            && LastToken(anns, x.features.tokenId.value).Some?
            && x.start == LastToken(anns, x.features.tokenId.value).value.start
            && x.end == LastToken(anns, x.features.tokenId.value).value.end)
      && (forall x, y :: x in em.added + em.rejected && y in em.added + em.rejected && x != y ==>
            x.features.tokenId != y.features.tokenId && x.id != y.id)
  {
    var t := Synthesized(anns).table;
    SynthesizeSpans(InitialState(anns), anns);
    FreshDistinctIds(anns);
    var em := RunOn(anns, accepts).emission;
    forall x | x in em.added + em.rejected
      ensures exists k :: k in t && HasSpan(t[k]) && x == AsAnnotation(t[k]) && x.features.tokenId == Some(k)
    {
      var k :| k in t && HasSpan(t[k]) && x == AsAnnotation(t[k]);
    }
  }

  /** Emission of one more key adds at most that key's annotation, to the one set its insertion lands in. */
  lemma EmitOneMore(table: map<int, NodeRecord>, done: set<int>, k: int, accepts: NodeAnnotation -> bool)
    requires done <= table.Keys && k in table && k !in done
    ensures AddedAmong(table, done + {k}, accepts) ==
      AddedAmong(table, done, accepts) +
      (if HasSpan(table[k]) && accepts(AsAnnotation(table[k])) then {AsAnnotation(table[k])} else {})
    ensures RejectedAmong(table, done + {k}, accepts) ==
      RejectedAmong(table, done, accepts) +
      (if HasSpan(table[k]) && !accepts(AsAnnotation(table[k])) then {AsAnnotation(table[k])} else {})
  {
  }

  // ---------------------------------------------------------------- a worked run

  /**
   * Existing annotations up to id 100; tokens 1 -> 2 ("dobj"), 2 -> 3
   * ("nsubj"), 3 without edges: nodes 101, 102, 103 with categories ROOT,
   * dobj, nsubj and children [102], [103] and none.
   */
  lemma WorkedExample()
    ensures var anns := [
        Annotation(100, "Sentence", 0, 15, []),
        Annotation(1, TokenType, 0, 5, [DependencyRelation(2, "dobj")]),
        Annotation(2, TokenType, 6, 10, [DependencyRelation(3, "nsubj")]),
        Annotation(3, TokenType, 11, 15, [])];
      Synthesized(anns).table == map[
        1 := NodeRecord(101, RootCat, Some(0), Some(5), Some(1), Some([102])),
        2 := NodeRecord(102, "dobj", Some(6), Some(10), Some(2), Some([103])),
        3 := NodeRecord(103, "nsubj", Some(11), Some(15), Some(3), None)]
  {
    var anns := [
        Annotation(100, "Sentence", 0, 15, []),
        Annotation(1, TokenType, 0, 5, [DependencyRelation(2, "dobj")]),
        Annotation(2, TokenType, 6, 10, [DependencyRelation(3, "nsubj")]),
        Annotation(3, TokenType, 11, 15, [])];
    assert MaxId(anns[..1]) == 100;
    assert MaxId(anns[..2]) == 100;
    assert MaxId(anns[..3]) == 100;
    assert MaxId(anns) == 100;
    var s0 := Synth(map[], 101);
    assert Synthesize(s0, anns[..1]) == s0;
    var s1 := Synth(map[1 := NodeRecord(101, RootCat, Some(0), Some(5), Some(1), Some([102])),
                        2 := NodeRecord(102, "dobj", None, None, None, None)], 103);
    assert TokenEdges(s0, anns[1]).ids == [102];
    assert Synthesize(s0, anns[..2]) == s1;
    var s2 := Synth(map[1 := NodeRecord(101, RootCat, Some(0), Some(5), Some(1), Some([102])),
                        2 := NodeRecord(102, "dobj", Some(6), Some(10), Some(2), Some([103])),
                        3 := NodeRecord(103, "nsubj", None, None, None, None)], 104);
    var b2 := Synth(map[1 := NodeRecord(101, RootCat, Some(0), Some(5), Some(1), Some([102])),
                        2 := NodeRecord(102, "dobj", Some(6), Some(10), Some(2), None)], 103);
    assert BeforeEdges(s1, anns[2]) == b2;
    assert 3 !in b2.table;
    assert Edges(b2, anns[2].dependencies) == EdgeStep(b2, DependencyRelation(3, "nsubj"));
    assert TokenEdges(s1, anns[2]).ids == [103];
    assert TokenEdges(s1, anns[2]).state == Synth(b2.table[3 := TargetRecord(103, "nsubj")], 104);
    assert FinalRecord(s1, anns[2]) == NodeRecord(102, "dobj", Some(6), Some(10), Some(2), Some([103]));
    assert TokenStep(s1, anns[2]) == s2;
    assert anns[..3][..2] == anns[..2];
    assert Synthesize(s0, anns[..3]) == s2;
    assert anns[..4] == anns;
  }
}
