/**
 * The export template of ConfigurableExporter: the parse of the
 * configuration line into literal "bridges" and "{slot}" names (init()),
 * the split of a slot into annotation type and feature, and the rendering
 * of one output line (execute()). Everything here is a function on values;
 * the class in module Exporter drives it.
 */
module ExportTemplate {
  import opened Wrappers

  // ---------------------------------------------------------------- strings

  /** String.indexOf(c, from): the first position at or after `from` holding `c`, if any. */
  function IndexOf(s: string, c: char, from: nat): (r: Option<nat>)
    ensures r.Some? ==> from <= r.value < |s| && s[r.value] == c
    decreases |s| - from
  {
    if from >= |s| then None
    else if s[from] == c then Some(from)
    else IndexOf(s, c, from + 1)
  }

  /** No position between `from` and the one IndexOf finds holds `c`; with none found, no position after `from` does. */
  lemma {:induction false} IndexOfFirst(s: string, c: char, from: nat)
    ensures IndexOf(s, c, from).Some? ==> forall j :: from <= j < IndexOf(s, c, from).value ==> s[j] != c
    ensures IndexOf(s, c, from).None? ==> forall j :: from <= j < |s| ==> s[j] != c
    decreases |s| - from
  {
    if from < |s| && s[from] != c {
      IndexOfFirst(s, c, from + 1);
    }
  }

  /** IndexOf finds nothing when `c` does not occur after `from`. */
  lemma {:induction false} IndexOfNone(s: string, c: char, from: nat)
    requires forall j :: from <= j < |s| ==> s[j] != c
    ensures IndexOf(s, c, from).None?
    decreases |s| - from
  {
    if from < |s| {
      IndexOfNone(s, c, from + 1);
    }
  }

  /** The position IndexOf finds is determined by where `c` first occurs. */
  lemma {:induction false} IndexOfAt(s: string, c: char, from: nat, x: nat)
    requires from <= x < |s| && s[x] == c
    requires forall j :: from <= j < x ==> s[j] != c
    ensures IndexOf(s, c, from) == Some(x)
    decreases x - from
  {
    if from < x {
      IndexOfAt(s, c, from + 1, x);
    }
  }

  predicate NoBraces(s: string) {
    forall i :: 0 <= i < |s| ==> s[i] != '{' && s[i] != '}'
  }

  predicate NoClose(s: string) {
    forall i :: 0 <= i < |s| ==> s[i] != '}'
  }

  predicate NoDot(s: string) {
    forall i :: 0 <= i < |s| ==> s[i] != '.'
  }

  // ---------------------------------------------------------------- parsing

  /** The exceptions init() catches: only one kind of brace left, or a "}" before the next "{". */
  datatype ParseError = Unbalanced | ClosedBeforeOpened

  /** The lists bridges and annsToInsert. */
  datatype Template = Template(bridges: seq<string>, slots: seq<string>)

  /** What init() leaves in the lists, and the exception it caught, if any. */
  datatype Parsed = Parsed(template: Template, error: Option<ParseError>)

  /** The lists built before position `upto`, followed by what the scan from `upto` appends. */
  function Prepend(bridges: seq<string>, slots: seq<string>, p: Parsed): Parsed {
    Parsed(Template(bridges + p.template.bridges, slots + p.template.slots), p.error)
  }

  /**
   * The scan of the configuration line from position `upto`. With no brace
   * left the rest of the line is the last bridge; with only one kind left the
   * scan throws; otherwise the text up to the "{" is a bridge, the text
   * between the "{" and the first "}" is a slot name, and the scan goes on
   * after the "}". When that "}" comes before the "{", the bridge is appended
   * and the slot's substring throws.
   */
  function ParseFrom(line: string, upto: nat): (p: Parsed)
    ensures |p.template.slots| <= |p.template.bridges| <= |p.template.slots| + 1
    decreases |line| - upto
  {
    if upto >= |line| then Parsed(Template([], []), None)
    else
      var open := IndexOf(line, '{', upto);
      var close := IndexOf(line, '}', upto);
      if open.None? && close.None? then Parsed(Template([line[upto..]], []), None)
      else if open.None? || close.None? then Parsed(Template([], []), Some(Unbalanced))
      else if close.value < open.value + 1 then Parsed(Template([line[upto..open.value]], []), Some(ClosedBeforeOpened))
      else Prepend([line[upto..open.value]], [line[open.value + 1..close.value]], ParseFrom(line, close.value + 1))
  }

  /**
   * init() on the first line of the configuration file (None when the file
   * has no line): an absent or empty line gives no bridges and no slots.
   */
  function ParseLine(line: Option<string>): (p: Parsed)
    ensures line.None? || line == Some("") ==> p == Parsed(Template([], []), None)
    ensures |p.template.slots| <= |p.template.bridges| <= |p.template.slots| + 1
  {
    match line
    case None => Parsed(Template([], []), None)
    case Some(l) => ParseFrom(l, 0)
  }

  // ---------------------------------------------------------------- rendering

  /** bridge_0 v_0 bridge_1 v_1 ...: one bridge before each value. */
  function Interleave(bridges: seq<string>, values: seq<string>): string
    requires |values| <= |bridges|
  {
    if values == [] then "" else bridges[0] + values[0] + Interleave(bridges[1..], values[1..])
  }

  /** The bridge printed after the last value: the last one, when there are more bridges than slots. */
  function Trailing(t: Template): string {
    if |t.bridges| > |t.slots| then t.bridges[|t.bridges| - 1] else ""
  }

  /** The template with one value per slot filled in. */
  function Fill(t: Template, values: seq<string>): string
    requires |values| == |t.slots| <= |t.bridges|
  {
    Interleave(t.bridges, values) + Trailing(t)
  }

  /** Each slot name written back between braces. */
  function Braced(slots: seq<string>): (r: seq<string>)
    ensures |r| == |slots|
  {
    if slots == [] then [] else ["{" + slots[0] + "}"] + Braced(slots[1..])
  }

  /** The configuration line a template stands for. */
  function Unparse(t: Template): string
    requires |t.slots| <= |t.bridges|
  {
    Fill(t, Braced(t.slots))
  }

  /**
   * The templates the parse produces on success: as many bridges as slots,
   * or one more that is not empty; no brace in a bridge; no "}" in a slot.
   */
  ghost predicate WellFormed(t: Template) {
    && (|t.bridges| == |t.slots| || (|t.bridges| == |t.slots| + 1 && t.bridges[|t.bridges| - 1] != ""))
    && (forall i :: 0 <= i < |t.bridges| ==> NoBraces(t.bridges[i]))
    && (forall i :: 0 <= i < |t.slots| ==> NoClose(t.slots[i]))
  }

  /** A region of the document an instance annotation spans. */
  datatype Span = Span(start: int, end: int)

  /**
   * What a line needs of an annotation: its text (None when reading the
   * document content threw) and its features, each as printed.
   */
  datatype AnnView = AnnView(text: Option<string>, features: map<string, string>)

  /**
   * The first annotation of a type in document order, within a span or in
   * the whole input set (inputAS.get and Utils.inDocumentOrder).
   */
  type FirstOf = (Option<Span>, string) -> Option<AnnView>

  /**
   * split("\\.", 2): the annotation type before the first ".", and the
   * feature after it (which may hold more dots), or None without a ".".
   */
  function SplitSlot(slot: string): (r: (string, Option<string>))
    ensures NoDot(r.0)
    ensures r.1.None? ==> slot == r.0
    ensures r.1.Some? ==> slot == r.0 + "." + r.1.value
  {
    IndexOfFirst(slot, '.', 0);
    match IndexOf(slot, '.', 0)
    case None => (slot, None)
    case Some(i) => (slot[..i], Some(slot[i + 1..]))
  }

  /**
   * What is printed for a slot: nothing when there is no annotation of its
   * type; the feature's value ("null" when the feature is absent) when the
   * slot names one; the annotation's text ("" when it cannot be read) otherwise.
   */
  function SlotValue(slot: string, scope: Option<Span>, first: FirstOf): (v: string)
    ensures first(scope, SplitSlot(slot).0).None? ==> v == ""
  {
    var (annType, feature) := SplitSlot(slot);
    match first(scope, annType)
    case None => ""
    case Some(ann) =>
      match feature
      case Some(f) => if f in ann.features then ann.features[f] else "null"
      case None => ann.text.GetOr("")
  }

  /** The value of each slot, in order. */
  function Values(slots: seq<string>, scope: Option<Span>, first: FirstOf): (r: seq<string>)
    ensures |r| == |slots|
  {
    if slots == [] then [] else [SlotValue(slots[0], scope, first)] + Values(slots[1..], scope, first)
  }

  /** One output line: the bridges and slot values interleaved, the trailing bridge, a newline. */
  function RenderLine(t: Template, scope: Option<Span>, first: FirstOf): string
    requires |t.slots| <= |t.bridges|
  {
    Fill(t, Values(t.slots, scope, first)) + "\n"
  }

  /** The output of execute(): one line for the document, or one per instance annotation. */
  function Export(t: Template, instanceName: Option<string>, first: FirstOf, instances: string -> seq<Span>): string
    requires |t.slots| <= |t.bridges|
  {
    if instanceName.None? || instanceName == Some("") then RenderLine(t, None, first)
    else Lines(t, instances(instanceName.value), first)
  }

  /** The lines of the instances, in document order. */
  function Lines(t: Template, spans: seq<Span>, first: FirstOf): string
    requires |t.slots| <= |t.bridges|
  {
    if spans == [] then ""
    else Lines(t, spans[..|spans| - 1], first) + RenderLine(t, Some(spans[|spans| - 1]), first)
  }

  // ---------------------------------------------------------------- reference definition

  /**
   * The configuration line read directly, with every "{name}" replaced by
   * its slot's value; a "{" with no "}" after it leaves the rest as it is.
   */
  function Substitute(s: string, scope: Option<Span>, first: FirstOf): string
    decreases |s|
  {
    if s == [] then []
    else if s[0] == '{' then
      match IndexOf(s, '}', 1)
      case Some(c) => SlotValue(s[1..c], scope, first) + Substitute(s[c + 1..], scope, first)
      case None => s
    else [s[0]] + Substitute(s[1..], scope, first)
  }
}
