/**
 * What the export template guarantees: the parse and the template's own
 * text are inverse to each other, the parse succeeds exactly on the lines
 * that some well-formed template spells, and a rendered line is the
 * configuration line with each "{name}" replaced by its value.
 */
module ExportTemplateProofs {
  import opened Wrappers
  import opened ExportTemplate

  // ---------------------------------------------------------------- structure of the template text

  /** Filling a template whose first slot comes after its first bridge. */
  lemma FillCons(b0: string, v0: string, s0: string, r: Template, rv: seq<string>)
    requires |rv| == |r.slots| <= |r.bridges|
    ensures Fill(Template([b0] + r.bridges, [s0] + r.slots), [v0] + rv) == b0 + v0 + Fill(r, rv)
  {
    var t := Template([b0] + r.bridges, [s0] + r.slots);
    assert t.bridges[1..] == r.bridges;
    assert ([v0] + rv)[1..] == rv;
    assert Trailing(t) == Trailing(r);
  }

  /** The text of a template whose first slot comes after its first bridge. */
  lemma UnparseCons(b0: string, s0: string, r: Template)
    requires |r.slots| <= |r.bridges|
    ensures Unparse(Template([b0] + r.bridges, [s0] + r.slots)) == b0 + "{" + s0 + "}" + Unparse(r)
  {
    assert ([s0] + r.slots)[1..] == r.slots;
    FillCons(b0, "{" + s0 + "}", s0, r, Braced(r.slots));
  }

  /** The line cut at one "{name}" step of the scan. */
  lemma SplitAtSlot(line: string, upto: nat, open: nat, close: nat)
    requires upto <= open < close < |line| && line[open] == '{' && line[close] == '}'
    ensures line[upto..] == line[upto..open] + "{" + line[open + 1..close] + "}" + line[close + 1..]
  {
    assert line[upto..] == line[upto..open] + line[open..close] + line[close..];
    assert line[open..close] == "{" + line[open + 1..close];
    assert line[close..] == "}" + line[close + 1..];
  }

  // ---------------------------------------------------------------- the cases of the scan

  /** At the end of the line the scan appends nothing. */
  lemma ScanEnd(line: string, upto: nat)
    requires |line| <= upto
    ensures ParseFrom(line, upto) == Parsed(Template([], []), None)
  {
  }

  /** The scan's last bridge: no brace left after `upto`. */
  lemma ScanNoBrace(line: string, upto: nat)
    requires upto < |line| && IndexOf(line, '{', upto).None? && IndexOf(line, '}', upto).None?
    ensures ParseFrom(line, upto) == Prepend([line[upto..]], [], ParseFrom(line, |line|))
  {
    ScanEnd(line, |line|);
  }

  /** The scan throws when only one kind of brace is left after `upto`. */
  lemma ScanUnbalanced(line: string, upto: nat)
    requires upto < |line| && (IndexOf(line, '{', upto).None? != IndexOf(line, '}', upto).None?)
    ensures ParseFrom(line, upto) == Parsed(Template([], []), Some(Unbalanced))
  {
  }

  /** The scan appends the bridge, then throws, when the next "}" comes before the next "{". */
  lemma ScanClosedFirst(line: string, upto: nat, o: nat, c: nat)
    requires upto < |line|
    requires IndexOf(line, '{', upto) == Some(o) && IndexOf(line, '}', upto) == Some(c) && c < o + 1
    ensures ParseFrom(line, upto) == Prepend([line[upto..o]], [], Parsed(Template([], []), Some(ClosedBeforeOpened)))
  {
  }

  /** One "{name}" step of the scan, once the braces are found. */
  lemma ScanStep(line: string, upto: nat, o: nat, c: nat)
    requires upto < |line|
    requires IndexOf(line, '{', upto) == Some(o) && IndexOf(line, '}', upto) == Some(c) && o < c
    ensures ParseFrom(line, upto) == Prepend([line[upto..o]], [line[o + 1..c]], ParseFrom(line, c + 1))
  {
  }

  /** A scan from inside the line that does not throw found no brace, or a "{" before a "}". */
  lemma ScanSucceeds(line: string, upto: nat)
    requires upto < |line| && ParseFrom(line, upto).error.None?
    ensures var o, c := IndexOf(line, '{', upto), IndexOf(line, '}', upto);
      (o.None? && c.None?) || (o.Some? && c.Some? && o.value < c.value)
  {
  }

  /** What the scan's step knows of the text it cuts: braces where it found them and none before. */
  lemma StepPieces(line: string, upto: nat, o: nat, c: nat)
    requires IndexOf(line, '{', upto) == Some(o) && IndexOf(line, '}', upto) == Some(c) && o < c
    ensures upto <= o < c < |line| && line[o] == '{' && line[c] == '}'
    ensures NoBraces(line[upto..o]) && NoClose(line[o + 1..c])
  {
    IndexOfFirst(line, '{', upto);
    IndexOfFirst(line, '}', upto);
    forall j | 0 <= j < o - upto ensures line[upto..o][j] != '{' && line[upto..o][j] != '}' {
      assert line[upto..o][j] == line[upto + j];
    }
    var name := line[o + 1..c];
    forall j | 0 <= j < |name| ensures name[j] != '}' {
      assert name[j] == line[o + 1 + j];
    }
  }

  /** What the scan knows of the rest of the line when no brace is left. */
  lemma LastPieces(line: string, upto: nat)
    requires upto < |line| && IndexOf(line, '{', upto).None? && IndexOf(line, '}', upto).None?
    ensures NoBraces(line[upto..]) && line[upto..] != ""
  {
    IndexOfFirst(line, '{', upto);
    IndexOfFirst(line, '}', upto);
    assert forall j :: 0 <= j < |line| - upto ==> line[upto..][j] == line[upto + j];
  }

  // ---------------------------------------------------------------- parse, then write back

  /** The text of the last bridge alone. */
  lemma UnparseLast(b: string)
    ensures Unparse(Template([b], [])) == b
  {
    assert Unparse(Template([b], [])) == "" + b;
  }

  /** Writing back the last bridge of the scan. */
  lemma ParseThenUnparseLast(line: string, upto: nat)
    requires upto < |line| && IndexOf(line, '{', upto).None? && IndexOf(line, '}', upto).None?
    ensures Unparse(ParseFrom(line, upto).template) == line[upto..]
  {
    ScanNoBrace(line, upto);
    ScanEnd(line, |line|);
    assert ParseFrom(line, upto).template == Template([line[upto..]], []);
    UnparseLast(line[upto..]);
  }

  /** Writing back one "{name}" step, given the text written back for the rest of the scan. */
  lemma ParseThenUnparseStep(line: string, upto: nat, o: nat, c: nat, next: nat)
    requires upto < |line|
    requires IndexOf(line, '{', upto) == Some(o) && IndexOf(line, '}', upto) == Some(c) && o < c && next == c + 1
    requires ParseFrom(line, next).error.None? ==> Unparse(ParseFrom(line, next).template) == line[next..]
    ensures ParseFrom(line, upto).error.None? ==> Unparse(ParseFrom(line, upto).template) == line[upto..]
  {
    var b, s := line[upto..o], line[o + 1..c];
    var rest := ParseFrom(line, next);
    assert ParseFrom(line, upto) == Prepend([b], [s], rest) by { ScanStep(line, upto, o, c); }
    if rest.error.None? {
      assert Unparse(Prepend([b], [s], rest).template) == b + "{" + s + "}" + Unparse(rest.template) by {
        UnparseCons(b, s, rest.template);
      }
      assert line[upto..] == b + "{" + s + "}" + line[next..] by {
        StepPieces(line, upto, o, c);
        SplitAtSlot(line, upto, o, c);
      }
    }
  }

  /**
   * Round trip: when the scan from `upto` succeeds, writing back bridge_i,
   * "{" name_i "}" in order and the trailing bridge gives the line from `upto`.
   */
  lemma {:induction false} ParseThenUnparse(line: string, upto: nat)
    requires upto <= |line|
    ensures var p := ParseFrom(line, upto);
      p.error.None? ==> Unparse(p.template) == line[upto..]
    decreases |line| - upto
  {
    if upto == |line| {
      ScanEnd(line, upto);
    } else if ParseFrom(line, upto).error.None? {
      ScanSucceeds(line, upto);
      var open, close := IndexOf(line, '{', upto), IndexOf(line, '}', upto);
      if open.None? {
        ParseThenUnparseLast(line, upto);
      } else {
        var next := close.value + 1;
        ParseThenUnparse(line, next);
        ParseThenUnparseStep(line, upto, open.value, close.value, next);
      }
    }
  }

  /** A bridge and a slot put before a well-formed template give a well-formed template. */
  lemma WellFormedCons(b0: string, s0: string, r: Template)
    requires NoBraces(b0) && NoClose(s0) && WellFormed(r)
    ensures WellFormed(Template([b0] + r.bridges, [s0] + r.slots))
  {
    var t := Template([b0] + r.bridges, [s0] + r.slots);
    forall i | 0 <= i < |t.bridges| ensures NoBraces(t.bridges[i]) {
      if i > 0 { assert t.bridges[i] == r.bridges[i - 1]; }
    }
    forall i | 0 <= i < |t.slots| ensures NoClose(t.slots[i]) {
      if i > 0 { assert t.slots[i] == r.slots[i - 1]; }
    }
    if |r.bridges| == |r.slots| + 1 {
      assert t.bridges[|t.bridges| - 1] == r.bridges[|r.bridges| - 1];
    }
  }

  /** One "{name}" step keeps the template well-formed, given the rest of the scan. */
  lemma ParseWellFormedStep(line: string, upto: nat, o: nat, c: nat, next: nat)
    requires upto < |line|
    requires IndexOf(line, '{', upto) == Some(o) && IndexOf(line, '}', upto) == Some(c) && o < c && next == c + 1
    requires ParseFrom(line, next).error.None? ==> WellFormed(ParseFrom(line, next).template)
    ensures ParseFrom(line, upto).error.None? ==> WellFormed(ParseFrom(line, upto).template)
  {
    var b, s := line[upto..o], line[o + 1..c];
    var rest := ParseFrom(line, next);
    assert ParseFrom(line, upto) == Prepend([b], [s], rest) by { ScanStep(line, upto, o, c); }
    if rest.error.None? {
      assert NoBraces(b) && NoClose(s) by { StepPieces(line, upto, o, c); }
      WellFormedCons(b, s, rest.template);
    }
  }

  /** A successful scan yields a well-formed template. */
  lemma {:induction false} ParseWellFormed(line: string, upto: nat)
    ensures var p := ParseFrom(line, upto);
      p.error.None? ==> WellFormed(p.template)
    decreases |line| - upto
  {
    if upto >= |line| {
      ScanEnd(line, upto);
    } else if ParseFrom(line, upto).error.None? {
      ScanSucceeds(line, upto);
      var open, close := IndexOf(line, '{', upto), IndexOf(line, '}', upto);
      if open.None? {
        ScanNoBrace(line, upto);
        ScanEnd(line, |line|);
        LastPieces(line, upto);
        assert ParseFrom(line, upto).template == Template([line[upto..]], []);
      } else {
        var next := close.value + 1;
        ParseWellFormed(line, next);
        ParseWellFormedStep(line, upto, open.value, close.value, next);
      }
    }
  }

  // ---------------------------------------------------------------- write, then parse back

  // The lemmas below take the positions they speak of as parameters, so
  // that each call hands its postcondition over with the very terms the
  // caller uses.

  /** The scan from `upto` cuts off bridge `b` and slot `s`, then goes on at `next`. */
  ghost predicate StepsTo(line: string, upto: nat, b: string, s: string, next: nat) {
    ParseFrom(line, upto) == Prepend([b], [s], ParseFrom(line, next))
  }

  /** The line holds bridge `b0`, "{", slot `s0` and "}" from `upto` on, the braces at `o` and `c`. */
  ghost predicate SlotTextHeld(line: string, upto: nat, o: nat, c: nat, b0: string, s0: string) {
    && o == upto + |b0| && c == o + 1 + |s0| && c < |line|
    && line[upto..o] == b0 && line[o] == '{' && line[o + 1..c] == s0 && line[c] == '}'
  }

  /** The pieces of a "{name}" step that the line holds from `upto` on, cut out by position. */
  lemma SlotTextIn(line: string, upto: nat, o: nat, c: nat, b0: string, s0: string, u: string)
    requires upto <= |line| && line[upto..] == b0 + "{" + s0 + "}" + u
    requires o == upto + |b0| && c == o + 1 + |s0|
    ensures SlotTextHeld(line, upto, o, c, b0, s0) && line[c + 1..] == u
  {
    var a := b0 + "{";
    var d := a + s0;
    var e := d + "}";
    var w := line[upto..];
    assert w == e + u;
    assert line[upto..o] == w[..|b0|] == e[..|b0|] == d[..|b0|] == a[..|b0|] == b0;
    assert line[o] == w[|b0|] == e[|b0|] == d[|b0|] == a[|b0|];
    assert line[o + 1..c] == w[|a|..|d|] == e[|a|..|d|] == d[|a|..] == s0;
    assert line[c] == w[|d|] == e[|d|];
    assert line[c + 1..] == w[|e|..] == u;
  }

  /** Where IndexOf finds the braces of a "{name}" step, from the pieces the line holds. */
  lemma SlotTextAt(line: string, upto: nat, o: nat, c: nat, b0: string, s0: string)
    requires NoBraces(b0) && NoClose(s0) && SlotTextHeld(line, upto, o, c, b0, s0)
    ensures IndexOf(line, '{', upto) == Some(o) && IndexOf(line, '}', upto) == Some(c)
  {
    forall j | upto <= j < o ensures line[j] != '{' && line[j] != '}' {
      assert line[j] == line[upto..o][j - upto];
    }
    forall j | o < j < c ensures line[j] != '}' {
      assert line[j] == line[o + 1..c][j - o - 1];
    }
    IndexOfAt(line, '{', upto, o);
    IndexOfAt(line, '}', upto, c);
  }

  /** One "{name}" step of the scan, from the pieces the line holds: the scan goes on after the "}". */
  lemma ScanSlotAt(line: string, upto: nat, o: nat, c: nat, next: nat, b0: string, s0: string)
    requires NoBraces(b0) && NoClose(s0) && SlotTextHeld(line, upto, o, c, b0, s0) && next == c + 1
    ensures StepsTo(line, upto, b0, s0, next)
  {
    SlotTextAt(line, upto, o, c, b0, s0);
    ScanStep(line, upto, o, c);
  }

  /** The scan of a bridge that the line holds from `upto` to its end: it is the last bridge. */
  lemma ScanLastAt(line: string, upto: nat, b: string)
    requires NoBraces(b) && b != "" && upto <= |line| && line[upto..] == b
    ensures ParseFrom(line, upto) == Parsed(Template([b], []), None)
  {
    forall j | upto <= j < |line| ensures line[j] != '{' && line[j] != '}' {
      assert line[j] == line[upto..][j - upto];
    }
    IndexOfNone(line, '{', upto);
    IndexOfNone(line, '}', upto);
    ScanNoBrace(line, upto);
    ScanEnd(line, |line|);
  }

  /** The rest of a well-formed template after its first bridge and slot. */
  lemma WellFormedTail(t: Template)
    requires WellFormed(t) && t.slots != []
    ensures t.bridges != []
    ensures WellFormed(Template(t.bridges[1..], t.slots[1..]))
  {
    var r := Template(t.bridges[1..], t.slots[1..]);
    forall i | 0 <= i < |r.bridges| ensures NoBraces(r.bridges[i]) { assert r.bridges[i] == t.bridges[i + 1]; }
    forall i | 0 <= i < |r.slots| ensures NoClose(r.slots[i]) { assert r.slots[i] == t.slots[i + 1]; }
  }

  /** The scan of the text of a template without slots, held by the line from `upto` on. */
  lemma UnparseThenParseLast(line: string, upto: nat, t: Template)
    requires WellFormed(t) && t.slots == [] && upto <= |line| && line[upto..] == Unparse(t)
    ensures ParseFrom(line, upto) == Parsed(t, None)
  {
    if t.bridges != [] {
      assert t == Template([t.bridges[0]], []);
      UnparseLast(t.bridges[0]);
      ScanLastAt(line, upto, t.bridges[0]);
    } else {
      assert t == Template([], []);
      assert |line[upto..]| == 0;
      ScanEnd(line, upto);
    }
  }

  /** A template is its first bridge and slot put before the rest. */
  lemma TemplateCons(t: Template)
    requires t.slots != [] && t.bridges != []
    ensures Prepend([t.bridges[0]], [t.slots[0]], Parsed(Template(t.bridges[1..], t.slots[1..]), None)) == Parsed(t, None)
  {
    assert [t.bridges[0]] + t.bridges[1..] == t.bridges;
    assert [t.slots[0]] + t.slots[1..] == t.slots;
  }

  /** The pieces of the first "{name}" step of a template's text that the line holds from `upto` on. */
  lemma UnparsePieces(line: string, upto: nat, o: nat, c: nat, t: Template, r: Template)
    requires |t.slots| <= |t.bridges| && t.slots != [] && upto <= |line| && line[upto..] == Unparse(t)
    requires o == upto + |t.bridges[0]| && c == o + 1 + |t.slots[0]|
    requires r == Template(t.bridges[1..], t.slots[1..])
    ensures SlotTextHeld(line, upto, o, c, t.bridges[0], t.slots[0]) && line[c + 1..] == Unparse(r)
  {
    var b0, s0 := t.bridges[0], t.slots[0];
    assert t == Template([b0] + r.bridges, [s0] + r.slots);
    UnparseCons(b0, s0, r);
    SlotTextIn(line, upto, o, c, b0, s0, Unparse(r));
  }

  /**
   * The first "{name}" step of the scan of a well-formed template's text,
   * held by the line from `upto` on; the text of the rest `r` follows from `next` on.
   */
  lemma UnparseThenParseStep(line: string, upto: nat, next: nat, t: Template, r: Template)
    requires WellFormed(t) && t.slots != [] && upto <= |line| && line[upto..] == Unparse(t)
    requires t.bridges != [] && next == upto + |t.bridges[0]| + 1 + |t.slots[0]| + 1
    requires r == Template(t.bridges[1..], t.slots[1..])
    ensures next <= |line| && line[next..] == Unparse(r)
    ensures StepsTo(line, upto, t.bridges[0], t.slots[0], next)
  {
    var o := upto + |t.bridges[0]|;
    var c := o + 1 + |t.slots[0]|;
    assert SlotTextHeld(line, upto, o, c, t.bridges[0], t.slots[0]) && line[next..] == Unparse(r) by {
      assert next == c + 1;
      UnparsePieces(line, upto, o, c, t, r);
    }
    assert NoBraces(t.bridges[0]) && NoClose(t.slots[0]);
    ScanSlotAt(line, upto, o, c, next, t.bridges[0], t.slots[0]);
  }

  /** The scan of a well-formed template's text, held by the line from `upto` on, gives back the template. */
  lemma {:induction false} UnparseThenParseAt(line: string, upto: nat, t: Template)
    requires WellFormed(t) && upto <= |line| && line[upto..] == Unparse(t)
    ensures ParseFrom(line, upto) == Parsed(t, None)
    decreases |t.slots|
  {
    if t.slots == [] {
      UnparseThenParseLast(line, upto, t);
    } else {
      WellFormedTail(t);
      var r := Template(t.bridges[1..], t.slots[1..]);
      var next := upto + |t.bridges[0]| + 1 + |t.slots[0]| + 1;
      UnparseThenParseStep(line, upto, next, t, r);
      UnparseThenParseAt(line, next, r);
      TemplateCons(t);
    }
  }

  /**
   * Round trip the other way: the scan of a well-formed template's text,
   * written after any prefix, gives back exactly that template.
   */
  lemma UnparseThenParse(pre: string, t: Template)
    requires WellFormed(t)
    ensures ParseFrom(pre + Unparse(t), |pre|) == Parsed(t, None)
  {
    var line := pre + Unparse(t);
    assert line[|pre|..] == Unparse(t);
    UnparseThenParseAt(line, |pre|, t);
  }

  /**
   * The scan of a configuration line succeeds exactly when the line is the
   * text of a well-formed template; the template it gives is then that one.
   */
  lemma ParseSucceedsIff(line: string)
    ensures ParseFrom(line, 0).error.None? <==> exists t :: WellFormed(t) && Unparse(t) == line
    ensures forall t :: WellFormed(t) && Unparse(t) == line ==> ParseFrom(line, 0) == Parsed(t, None)
  {
    if ParseFrom(line, 0).error.None? {
      ParseThenUnparse(line, 0);
      ParseWellFormed(line, 0);
      assert WellFormed(ParseFrom(line, 0).template) && Unparse(ParseFrom(line, 0).template) == line;
    }
    forall t | WellFormed(t) && Unparse(t) == line ensures ParseFrom(line, 0) == Parsed(t, None) {
      UnparseThenParse("", t);
      assert "" + Unparse(t) == line;
    }
  }

  // ---------------------------------------------------------------- rendering

  /** Substitution leaves the text of a bridge as it is. */
  lemma {:induction false} SubstituteBridge(b: string, rest: string, scope: Option<Span>, first: FirstOf)
    requires NoBraces(b)
    ensures Substitute(b + rest, scope, first) == b + Substitute(rest, scope, first)
    decreases |b|
  {
    if b != [] {
      assert (b + rest)[0] == b[0];
      assert (b + rest)[1..] == b[1..] + rest;
      SubstituteBridge(b[1..], rest, scope, first);
    } else {
      assert b + rest == rest;
    }
  }

  /** Substitution replaces a "{name}" with the slot's value. */
  lemma SubstituteSlot(name: string, rest: string, scope: Option<Span>, first: FirstOf)
    requires NoClose(name)
    ensures Substitute("{" + name + "}" + rest, scope, first) == SlotValue(name, scope, first) + Substitute(rest, scope, first)
  {
    var s := "{" + name + "}" + rest;
    var c := |name| + 1;
    forall j | 1 <= j < c ensures s[j] != '}' { assert s[j] == name[j - 1]; }
    IndexOfAt(s, '}', 1, c);
    assert s[1..c] == name;
    assert s[c + 1..] == rest;
  }

  /** Substitution over the first bridge and "{name}" of a template's text. */
  lemma SubstituteHead(b0: string, s0: string, r: Template, scope: Option<Span>, first: FirstOf)
    requires NoBraces(b0) && NoClose(s0) && |r.slots| <= |r.bridges|
    ensures Substitute(Unparse(Template([b0] + r.bridges, [s0] + r.slots)), scope, first) ==
      b0 + (SlotValue(s0, scope, first) + Substitute(Unparse(r), scope, first))
  {
    UnparseCons(b0, s0, r);
    var u := Unparse(r);
    var slotText := "{" + s0 + "}" + u;
    assert b0 + "{" + s0 + "}" + u == b0 + slotText;
    SubstituteBridge(b0, slotText, scope, first);
    SubstituteSlot(s0, u, scope, first);
  }

  /** Filling with the slot values over the first bridge and slot of a template. */
  lemma FillValuesHead(b0: string, s0: string, r: Template, scope: Option<Span>, first: FirstOf)
    requires |r.slots| <= |r.bridges|
    ensures var t := Template([b0] + r.bridges, [s0] + r.slots);
      Fill(t, Values(t.slots, scope, first)) ==
      b0 + (SlotValue(s0, scope, first) + Fill(r, Values(r.slots, scope, first)))
  {
    var t := Template([b0] + r.bridges, [s0] + r.slots);
    assert t.slots[1..] == r.slots;
    var v0 := SlotValue(s0, scope, first);
    var vs := Values(r.slots, scope, first);
    assert Values(t.slots, scope, first) == [v0] + vs;
    FillCons(b0, v0, s0, r, vs);
  }

  /** Substituting into a well-formed template's text is filling it with the slot values. */
  lemma {:induction false} SubstituteUnparse(t: Template, scope: Option<Span>, first: FirstOf)
    requires WellFormed(t)
    ensures Substitute(Unparse(t), scope, first) == Fill(t, Values(t.slots, scope, first))
    decreases |t.slots|
  {
    if t.slots == [] {
      if t.bridges != [] {
        SubstituteBridge(t.bridges[0], "", scope, first);
        assert Unparse(t) == t.bridges[0] + "";
      }
    } else {
      WellFormedTail(t);
      var r := Template(t.bridges[1..], t.slots[1..]);
      assert t == Template([t.bridges[0]] + r.bridges, [t.slots[0]] + r.slots);
      SubstituteHead(t.bridges[0], t.slots[0], r, scope, first);
      FillValuesHead(t.bridges[0], t.slots[0], r, scope, first);
      SubstituteUnparse(r, scope, first);
    }
  }

  /**
   * A rendered line, for a configuration line that parsed: the configuration
   * line with every "{name}" replaced by that slot's value, then a newline.
   */
  lemma RenderedLineIsSubstitution(line: string, scope: Option<Span>, first: FirstOf)
    requires ParseFrom(line, 0).error.None?
    ensures RenderLine(ParseFrom(line, 0).template, scope, first) == Substitute(line, scope, first) + "\n"
  {
    var t := ParseFrom(line, 0).template;
    ParseThenUnparse(line, 0);
    ParseWellFormed(line, 0);
    SubstituteUnparse(t, scope, first);
  }

  // ---------------------------------------------------------------- examples

  /** A line with a feature slot and a text slot. */
  lemma ParseExample()
    ensures ParseLine(Some("N{P.g},{L}.")) == Parsed(Template(["N", ",", "."], ["P.g", "L"]), None)
  {
    var l := "N{P.g},{L}.";
    assert IndexOf(l, '{', 0) == Some(1) && IndexOf(l, '}', 0) == Some(5);
    assert IndexOf(l, '{', 6) == Some(7) && IndexOf(l, '}', 6) == Some(9);
    assert IndexOf(l, '{', 10) == None && IndexOf(l, '}', 10) == None;
    assert l[0..1] == "N" && l[2..5] == "P.g" && l[6..7] == "," && l[8..9] == "L" && l[10..] == ".";
    assert ParseFrom(l, 10) == Parsed(Template(["."], []), None);
    assert ParseFrom(l, 6) == Parsed(Template([",", "."], ["L"]), None);
  }

  /** A "}" before the next "{": the bridge up to the "{" is kept, "}" and all, then the scan throws. */
  lemma ClosedBeforeOpenedExample()
    ensures ParseLine(Some("a}b{c")) == Parsed(Template(["a}b"], []), Some(ClosedBeforeOpened))
  {
    var e := "a}b{c";
    assert IndexOf(e, '{', 0) == Some(3) && IndexOf(e, '}', 0) == Some(1);
    assert e[0..3] == "a}b";
  }

  /** A "{" with no "}" after it: the scan throws before appending anything. */
  lemma UnbalancedExample()
    ensures ParseLine(Some("x{y")) == Parsed(Template([], []), Some(Unbalanced))
  {
    var u := "x{y";
    assert IndexOf(u, '{', 0) == Some(1) && IndexOf(u, '}', 0) == None;
  }

  /** Only the first "." splits a slot. */
  lemma SplitSlotExample()
    ensures SplitSlot("P.g.v") == ("P", Some("g.v"))
  {
    var s := "P.g.v";
    assert IndexOf(s, '.', 0) == Some(1);
    assert s[..1] == "P" && s[2..] == "g.v";
  }
}
