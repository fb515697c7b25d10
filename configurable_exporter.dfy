/**
 * The ConfigurableExporter processing resource: init() reads the first line
 * of the configuration file into the lists bridges and annsToInsert, and
 * execute() prints one line per document, or one per instance annotation,
 * by interleaving the bridges with each slot's value. The output stream is
 * modelled as the string execute() returns.
 */
module Exporter {
  import opened Wrappers
  import opened ExportTemplate
  import opened ExportTemplateProofs

  /** How the configuration file presents itself to init(). */
  datatype ConfigFile =
    | NoUrl                          // configFileURL is null
    | Unreadable                     // openStream() or readLine() throws
    | Readable(lines: seq<string>)   // the lines of the file

  /** An exception init() catches and only logs. */
  datatype Logged = ParseFailed(error: ParseError) | ReadFailed

  /** How init() ends: by throwing for a missing URL, or by returning, maybe after logging. */
  datatype InitOutcome = MissingConfigFile | Initialised(logged: Option<Logged>)

  /** The first line of the file, or None for an empty file. */
  function FirstLine(lines: seq<string>): Option<string> {
    if lines == [] then None else Some(lines[0])
  }

  /** The logged form of a parse exception. */
  function LoggedOf(e: Option<ParseError>): Option<Logged> {
    match e
    case None => None
    case Some(err) => Some(ParseFailed(err))
  }

  /** The bridges before slot i, interleaved with the values of slots before i: one step further. */
  lemma {:induction false} InterleaveSnoc(bridges: seq<string>, values: seq<string>, i: nat)
    requires i < |values| <= |bridges|
    ensures Interleave(bridges[..i + 1], values[..i + 1]) ==
      Interleave(bridges[..i], values[..i]) + bridges[i] + values[i]
    decreases i
  {
    if i == 0 {
      assert bridges[..1] == [bridges[0]] && values[..1] == [values[0]];
      assert Interleave(bridges[..1], values[..1]) == bridges[0] + values[0] + Interleave([], []);
    } else {
      InterleaveSnoc(bridges[1..], values[1..], i - 1);
      assert bridges[..i + 1][1..] == bridges[1..][..i];
      assert values[..i + 1][1..] == values[1..][..i];
      assert bridges[..i][1..] == bridges[1..][..i - 1];
      assert values[..i][1..] == values[1..][..i - 1];
      assert bridges[1..][i - 1] == bridges[i] && values[1..][i - 1] == values[i];
    }
  }

  /** Appending to the lists, then scanning on, is one prepend of both parts. */
  lemma PrependAssoc(b: seq<string>, s: seq<string>, b1: seq<string>, s1: seq<string>, p: Parsed)
    ensures Prepend(b, s, Prepend(b1, s1, p)) == Prepend(b + b1, s + s1, p)
  {
    assert b + (b1 + p.template.bridges) == (b + b1) + p.template.bridges;
    assert s + (s1 + p.template.slots) == (s + s1) + p.template.slots;
  }

  class ConfigurableExporter {
    /** The text printed before each slot, and after the last one. */
    var bridges: seq<string>
    /** The slot names, "Type" or "Type.feature". */
    var annsToInsert: seq<string>

    /** One bridge before each slot, and at most one after the last. */
    ghost predicate Valid()
      reads this
    {
      |annsToInsert| <= |bridges| <= |annsToInsert| + 1
    }

    /** The template the two lists describe. */
    function Config(): Template
      reads this
    {
      Template(bridges, annsToInsert)
    }

    constructor ()
      ensures Valid() && bridges == [] && annsToInsert == []
    {
      bridges := [];
      annsToInsert := [];
    }

    /**
     * init(): both lists are reset; a null URL throws; otherwise the first
     * line, if any, is scanned, and an exception on the way is logged and
     * leaves the lists as far as they got.
     */
    method Init(configFile: ConfigFile) returns (outcome: InitOutcome)
      modifies this
      ensures Valid()
      ensures !configFile.Readable? ==> bridges == [] && annsToInsert == []
      ensures configFile.NoUrl? ==> outcome == MissingConfigFile
      ensures configFile.Unreadable? ==> outcome == Initialised(Some(ReadFailed))
      ensures configFile.Readable? ==>
        var p := ParseLine(FirstLine(configFile.lines));
        Config() == p.template && outcome == Initialised(LoggedOf(p.error))
    {
      annsToInsert := [];
      bridges := [];
      match configFile
      case NoUrl =>
        return MissingConfigFile;
      case Unreadable =>
        return Initialised(Some(ReadFailed));
      case Readable(lines) =>
        if lines == [] {
          return Initialised(None);
        }
        var error := ScanLine(lines[0]);
        return Initialised(LoggedOf(error));
    }

    /**
     * The scan of the first configuration line in init(), started on empty
     * lists: each step appends to the lists in place, and an exception
     * leaves them as far as they got.
     */
    method ScanLine(strLine: string) returns (error: Option<ParseError>)
      requires bridges == [] && annsToInsert == []
      modifies this
      ensures Config() == ParseFrom(strLine, 0).template && error == ParseFrom(strLine, 0).error
    {
      var upto: nat := 0;
      assert Prepend([], [], ParseFrom(strLine, 0)) == ParseFrom(strLine, 0);
      while upto < |strLine|
        invariant ParseFrom(strLine, 0) == Prepend(bridges, annsToInsert, ParseFrom(strLine, upto))
        decreases |strLine| - upto
      {
        var startAnnoName := IndexOf(strLine, '{', upto);
        var endAnnoName := IndexOf(strLine, '}', upto);
        if startAnnoName.None? && endAnnoName.None? {
          assert ParseFrom(strLine, 0) == Prepend(bridges + [strLine[upto..]], annsToInsert, ParseFrom(strLine, |strLine|)) by {
            ScanNoBrace(strLine, upto);
            PrependAssoc(bridges, annsToInsert, [strLine[upto..]], [], ParseFrom(strLine, |strLine|));
          }
          bridges := bridges + [strLine[upto..]];
          upto := |strLine|;
        } else if startAnnoName.None? || endAnnoName.None? {
          assert Config() == ParseFrom(strLine, 0).template && ParseFrom(strLine, 0).error == Some(Unbalanced) by {
            ScanUnbalanced(strLine, upto);
            assert bridges + [] == bridges && annsToInsert + [] == annsToInsert;
          }
          return Some(Unbalanced);
        } else {
          var o, c := startAnnoName.value, endAnnoName.value;
          if c < o + 1 {
            assert Template(bridges + [strLine[upto..o]], annsToInsert) == ParseFrom(strLine, 0).template
              && ParseFrom(strLine, 0).error == Some(ClosedBeforeOpened) by {
              ScanClosedFirst(strLine, upto, o, c);
              PrependAssoc(bridges, annsToInsert, [strLine[upto..o]], [], Parsed(Template([], []), Some(ClosedBeforeOpened)));
            }
            bridges := bridges + [strLine[upto..o]];
            return Some(ClosedBeforeOpened);
          }
          assert ParseFrom(strLine, 0) == Prepend(bridges + [strLine[upto..o]], annsToInsert + [strLine[o + 1..c]], ParseFrom(strLine, c + 1)) by {
            ScanStep(strLine, upto, o, c);
            PrependAssoc(bridges, annsToInsert, [strLine[upto..o]], [strLine[o + 1..c]], ParseFrom(strLine, c + 1));
          }
          bridges := bridges + [strLine[upto..o]];
          annsToInsert := annsToInsert + [strLine[o + 1..c]];
          upto := c + 1;
        }
      }
      assert ParseFrom(strLine, upto) == Parsed(Template([], []), None);
      assert bridges + [] == bridges && annsToInsert + [] == annsToInsert;
      return None;
    }

    /**
     * The loop over the slots in execute(): each bridge followed by its
     * slot's value, then the trailing bridge and a newline. The scope is
     * the instance's span, or None for the whole input set.
     */
    method WriteLine(scope: Option<Span>, first: FirstOf) returns (line: string)
      requires Valid()
      ensures line == RenderLine(Config(), scope, first)
    {
      ghost var values := Values(annsToInsert, scope, first);
      line := "";
      var i := 0;
      while i < |annsToInsert|
        invariant i <= |annsToInsert|
        invariant line == Interleave(bridges[..i], values[..i])
      {
        line := line + bridges[i];
        var (annType, feature) := SplitSlot(annsToInsert[i]);
        var typedAnnotation := first(scope, annType);
        if typedAnnotation.Some? {
          var annotationToPrint := typedAnnotation.value;
          if feature.Some? {
            line := line + (if feature.value in annotationToPrint.features
                            then annotationToPrint.features[feature.value] else "null");
          } else {
            line := line + annotationToPrint.text.GetOr("");
          }
        }
        assert values[i] == SlotValue(annsToInsert[i], scope, first) by { ValuesAt(annsToInsert, scope, first, i); }
        InterleaveSnoc(bridges, values, i);
        i := i + 1;
      }
      assert bridges[..i] == bridges[..|values|] && values[..i] == values;
      InterleavePrefix(bridges, values);
      if |bridges| > |annsToInsert| {
        line := line + bridges[|bridges| - 1];
      }
      line := line + "\n";
    }

    /**
     * execute(): with no instance type, one line for the document; otherwise
     * one line per instance annotation, in document order, each slot looked
     * up within the instance's span.
     */
    method Execute(instanceName: Option<string>, first: FirstOf, instances: string -> seq<Span>) returns (out: string)
      requires Valid()
      ensures out == Export(Config(), instanceName, first, instances)
    {
      if instanceName.None? || instanceName == Some("") {
        out := WriteLine(None, first);
      } else {
        var spans := instances(instanceName.value);
        out := "";
        var i := 0;
        while i < |spans|
          invariant i <= |spans|
          invariant out == Lines(Config(), spans[..i], first)
        {
          var line := WriteLine(Some(spans[i]), first);
          assert spans[..i + 1][..i] == spans[..i];
          out := out + line;
          i := i + 1;
        }
        assert spans[..i] == spans;
      }
    }
  }

  /** The value list's i-th entry is the i-th slot's value. */
  lemma {:induction false} ValuesAt(slots: seq<string>, scope: Option<Span>, first: FirstOf, i: nat)
    requires i < |slots|
    ensures Values(slots, scope, first)[i] == SlotValue(slots[i], scope, first)
    decreases i
  {
    if i > 0 {
      ValuesAt(slots[1..], scope, first, i - 1);
    }
  }

  /** Interleaving only looks at as many bridges as there are values. */
  lemma {:induction false} InterleavePrefix(bridges: seq<string>, values: seq<string>)
    requires |values| <= |bridges|
    ensures Interleave(bridges[..|values|], values) == Interleave(bridges, values)
    decreases |values|
  {
    if values != [] {
      InterleavePrefix(bridges[1..], values[1..]);
      assert bridges[..|values|][1..] == bridges[1..][..|values| - 1];
    }
  }
}
