# Dependency nodes and the configurable exporter, in Dafny

This project models two processing resources of a GATE plugin and proves
properties of the model.

**DependencyNodeGenerator.execute()** builds one `DependencyTreeNode` per
`Token` from the tokens' dependency edges. It has three passes:

1. A scan finds the largest annotation id. A counter `uniqueID` starts just above it.
2. A synthesis pass over the Token annotations fills the table `tokenToDepNode`, keyed by token id.
   - Each source token gets or creates its own record and sets its span and `TokenID`.
   - For each dependency, the pass gets or creates the target's record and sets its `cat` to the relation type.
   - The pass collects the targets' `ID`s into `consists`.
3. An emission pass adds every record that has a span to the annotation set. A failing `add` is tolerated.

Records are `NodeRecord` values in a `map<int, NodeRecord>`. The two aliasing cases of the Java code are reproduced exactly:

- When the token is already in the table, `currTokenFeats` is the table's own record. A self-edge then changes that record's `cat`.
- On a token's first visit, `currTokenFeats` is a local record. A self-edge creates a second record under the token id, and the final put overwrites it.

The methods in `DependencyNodeGenerator` are the imperative passes, proved equal to the functions in `DependencyNodeModel`. The lemmas in `DependencyNodeProofs` state what those functions guarantee.

**ConfigurableExporter** has two parts:

- `init()` scans the first configuration line into the lists `bridges` (the literal text) and `annsToInsert` (the `{slot}` names).
- `execute()` prints one line per document, or one line per instance annotation. Each line interleaves the bridges with the slot values, then adds the optional trailing bridge and a newline.

A slot `Type.feature` prints the feature of the first `Type` annotation. A slot `Type` prints that annotation's text.

- The class `Exporter.ConfigurableExporter` keeps the two lists as fields.
  - `Init` and `ScanLine` append to them in place.
  - `WriteLine` and `Execute` run the Java loops and return the printed text.
- `ExportTemplate` holds the specification functions: the scan `ParseFrom`, the slot split `SplitSlot` and the renderer `RenderLine`.
- `ExportTemplateProofs` proves three things about them:
  - the parse round-trips in both directions;
  - a line parses exactly when some well-formed template spells it;
  - a rendered line is the configuration line with each `{name}` replaced by its value (`Substitute`, an independent reference definition).

Files:

- `wrappers.dfy`: Option and Result.
- `dependency_node_model.dfy`, `dependency_node_proofs.dfy`, `dependency_node_generator.dfy`
- `export_template.dfy`, `export_template_proofs.dfy`, `configurable_exporter.dfy`

### Behaviour of the code worth knowing

- **Self-loops.** A self-loop puts the node's own ID in `consists` only when the token is already in the table.
  - On a token's first visit, the self-edge allocates a separate record for the same token.
  - Line 92 then overwrites that record, so `consists` holds an ID that belongs to no record, and the node's `cat` stays `ROOT`.
  - `DependencyNodeProofs.FirstVisitSelfEdgeOrphan` states this.
- **Edge targets.** The edge loop looks a target up by its ID and allocates a record when none exists. It makes no check that the ID names a token. The model's targets are plain integers.
- **Empty children.** `consists` is written only when the list is non-empty. A node that no edge leaves has no `consists` feature at all (`DependencyNodeProofs.WorkedExample`).
- **Rejected insertions.** Every source token's record is handed to `add`. When `add` throws, the exception is caught and that record is dropped. `SourcesEmitted` states that every source token's record is either added or rejected.

## Model

| member | source | states |
|---|---|---|
| DependencyNodeModel.MaxId | src/main/java/gate/creole/DependencyNodeGenerator/DependencyNodeGenerator.java:44-49 | the scan's result is non-negative, at least every annotation id, and is 0 or one of the ids |
| DependencyNodeGenerator.MaxAnnotationId | src/main/java/gate/creole/DependencyNodeGenerator/DependencyNodeGenerator.java:44-49 | the loop over all annotations, of every type, leaves uniqueID equal to the largest id, or 0 |
| DependencyNodeGenerator.VisitToken | src/main/java/gate/creole/DependencyNodeGenerator/DependencyNodeGenerator.java:55-92 | the in-place visit of one token (get-or-create, span, edge loop, consists, final put) yields exactly the table and counter TokenStep specifies, for both aliasing cases |
| DependencyNodeGenerator.SynthesizeNodes | src/main/java/gate/creole/DependencyNodeGenerator/DependencyNodeGenerator.java:52-94 | the loop over the annotations in traversal order, visiting only Tokens, yields the table and counter Synthesize specifies |
| DependencyNodeGenerator.EmitNodes | src/main/java/gate/creole/DependencyNodeGenerator/DependencyNodeGenerator.java:96-109 | the loop over the table in any order adds exactly the records with both offsets that add accepts, and the rejected ones are exactly those add throws on; records without a span are skipped |
| DependencyNodeGenerator.Execute | src/main/java/gate/creole/DependencyNodeGenerator/DependencyNodeGenerator.java:34-110 | a null document fails with "No document to process!" before anything is built; otherwise the id scan, synthesis from max+1, and emission of the resulting table |
| DependencyNodeModel.Edges | src/main/java/gate/creole/DependencyNodeGenerator/DependencyNodeGenerator.java:73-87 | the edge loop only adds keys, and collects one ID per dependency |
| DependencyNodeModel.EdgeStep | src/main/java/gate/creole/DependencyNodeGenerator/DependencyNodeGenerator.java:74-86 | no contract: defines one edge (get or create the target's record, set its `cat`, put it back, collect its ID); `EdgeStepShape` characterises it |
| DependencyNodeProofs.EdgeStepShape | src/main/java/gate/creole/DependencyNodeGenerator/DependencyNodeGenerator.java:74-86 | one edge: the target gets a fresh ID and the relation as cat when absent, otherwise only its cat changes; its ID is what is collected; other records are unchanged |
| DependencyNodeProofs.EdgesKeys | src/main/java/gate/creole/DependencyNodeGenerator/DependencyNodeGenerator.java:73-87 | after the edge loop, the keys are the old keys plus every target id |
| DependencyNodeProofs.EdgesKeep | src/main/java/gate/creole/DependencyNodeGenerator/DependencyNodeGenerator.java:77-86 | the edge loop changes only the cat of existing records; new records are target records whose IDs lie in the counter range the loop used |
| DependencyNodeProofs.EdgesIds | src/main/java/gate/creole/DependencyNodeGenerator/DependencyNodeGenerator.java:85-86 | the i-th collected ID is the ID of the record stored under the i-th dependency's target, in dependency order |
| DependencyNodeProofs.EdgesCat | src/main/java/gate/creole/DependencyNodeGenerator/DependencyNodeGenerator.java:84 | the last edge to a target decides its cat; a target created in the loop has the relation of its last edge |
| DependencyNodeProofs.TokenStepRecord | src/main/java/gate/creole/DependencyNodeGenerator/DependencyNodeGenerator.java:59-92 | after a visit, the token's record has the old ID, or the next counter value on a first visit; cat ROOT on a first visit, otherwise the last self-edge's relation or the old cat; the token's offsets and id; consists the collected IDs when there are dependencies, otherwise unchanged |
| DependencyNodeProofs.TokenStepOthers | src/main/java/gate/creole/DependencyNodeGenerator/DependencyNodeGenerator.java:77-86 | a visit adds the token and its targets as keys, never lowers the counter, changes only the cat of other existing records (the last edge wins), and gives new targets fresh IDs |
| DependencyNodeProofs.TokenStepIds | src/main/java/gate/creole/DependencyNodeGenerator/DependencyNodeGenerator.java:85-92 | consists lists the IDs of the dependency targets' records in dependency order, except for a self-edge on a first visit |
| DependencyNodeModel.Current | src/main/java/gate/creole/DependencyNodeGenerator/DependencyNodeGenerator.java:57-69 | no contract: defines `currTokenFeats` after the offsets and `TokenID` are put; `TokenStepRecord` characterises it |
| DependencyNodeModel.BeforeEdges | src/main/java/gate/creole/DependencyNodeGenerator/DependencyNodeGenerator.java:59-69 | no contract: defines the table and counter the edge loop starts from, aliasing the table entry of a token seen before; `TokenStepRecord` characterises it |
| DependencyNodeModel.FinalRecord | src/main/java/gate/creole/DependencyNodeGenerator/DependencyNodeGenerator.java:89-92 | no contract: defines the record put under the token's ID, with `consists` only when IDs were collected; `TokenStepRecord` and `FirstVisitSelfEdgeOrphan` characterise it |
| DependencyNodeModel.TokenStep | src/main/java/gate/creole/DependencyNodeGenerator/DependencyNodeGenerator.java:55-92 | no contract: defines the visit of one token; `TokenStepRecord`, `TokenStepOthers` and `TokenStepIds` characterise it |
| DependencyNodeModel.Step | src/main/java/gate/creole/DependencyNodeGenerator/DependencyNodeGenerator.java:54 | no contract: defines the type filter, under which only `Token` annotations are visited; `SynthesizeNoTokens` characterises it |
| DependencyNodeModel.Synthesize | src/main/java/gate/creole/DependencyNodeGenerator/DependencyNodeGenerator.java:52-94 | no contract: defines the synthesis pass in traversal order; `SynthesizeInv`, `SynthesizeKeys`, `SynthesizeSpans`, `FreshDistinctIds` and `LastTokenSpec` characterise it |
| DependencyNodeProofs.FirstVisitSelfEdgeOrphan | src/main/java/gate/creole/DependencyNodeGenerator/DependencyNodeGenerator.java:78-92 | on a token's first visit, the ID a self-edge collects belongs to no record of the table afterwards |
| DependencyNodeProofs.EdgesInv | src/main/java/gate/creole/DependencyNodeGenerator/DependencyNodeGenerator.java:78-80 | the edge loop keeps every ID, and every collected ID, in the range handed out since the start, with distinct IDs across records |
| DependencyNodeProofs.TokenStepInv | src/main/java/gate/creole/DependencyNodeGenerator/DependencyNodeGenerator.java:59-92 | a token visit keeps the same invariant |
| DependencyNodeProofs.SynthesizeInv | src/main/java/gate/creole/DependencyNodeGenerator/DependencyNodeGenerator.java:52-94 | the whole synthesis pass keeps it |
| DependencyNodeProofs.FreshDistinctIds | src/main/java/gate/creole/DependencyNodeGenerator/DependencyNodeGenerator.java:44-50 | every node ID, and every ID in a consists list, is greater than every annotation id of any type, and no two records share an ID |
| DependencyNodeProofs.IdsNeverChange | src/main/java/gate/creole/DependencyNodeGenerator/DependencyNodeGenerator.java:64-66 | a key already in the table stays in it and keeps its ID for the rest of the pass |
| DependencyNodeProofs.SynthesizeAppend | src/main/java/gate/creole/DependencyNodeGenerator/DependencyNodeGenerator.java:52-94 | the pass over two runs of annotations is the pass over the first, continued over the second |
| DependencyNodeProofs.SynthesizeNoTokens | src/main/java/gate/creole/DependencyNodeGenerator/DependencyNodeGenerator.java:54 | annotations that are not Tokens change neither the table nor the counter |
| DependencyNodeProofs.FirstTokenId | src/main/java/gate/creole/DependencyNodeGenerator/DependencyNodeGenerator.java:44-63 | the first Token visited gets ID max(0, all ids) + 1 |
| DependencyNodeProofs.SynthesizeKeys | src/main/java/gate/creole/DependencyNodeGenerator/DependencyNodeGenerator.java:54-92 | a key is in the table exactly when some Token has that id or names it as a dependency target |
| DependencyNodeProofs.SynthesizeSpans | src/main/java/gate/creole/DependencyNodeGenerator/DependencyNodeGenerator.java:67-69 | a record's offsets and TokenID are those of the last Token with its id, and are unset for keys that are only targets |
| DependencyNodeProofs.LastTokenSpec | src/main/java/gate/creole/DependencyNodeGenerator/DependencyNodeGenerator.java:52-54 | LastToken finds a Token with the id exactly when one exists, and then it is the last one in traversal order |
| DependencyNodeProofs.SourcesEmitted | src/main/java/gate/creole/DependencyNodeGenerator/DependencyNodeGenerator.java:97-105 | every Token's record has a span and is handed to add, with the last such Token's offsets |
| DependencyNodeModel.AddedAmong | src/main/java/gate/creole/DependencyNodeGenerator/DependencyNodeGenerator.java:97-105 | no contract: defines the records with both offsets that `add` takes; `EmitOneMore` gives it one record at a time |
| DependencyNodeModel.RejectedAmong | src/main/java/gate/creole/DependencyNodeGenerator/DependencyNodeGenerator.java:97-105 | no contract: defines the records with both offsets whose `add` throws; `EmitOneMore` gives it one record at a time |
| DependencyNodeModel.Emit | src/main/java/gate/creole/DependencyNodeGenerator/DependencyNodeGenerator.java:96-109 | no contract: defines the emission loop over the table; `DependencyNodeGenerator.EmitNodes` is proved equal to it |
| DependencyNodeModel.RunOn | src/main/java/gate/creole/DependencyNodeGenerator/DependencyNodeGenerator.java:34-110 | no contract: defines a whole run on a document; `SourcesEmitted` and `EmittedAreSources` characterise it, and `DependencyNodeGenerator.Execute` is proved equal to it |
| DependencyNodeProofs.DanglingTargetsSkipped | src/main/java/gate/creole/DependencyNodeGenerator/DependencyNodeGenerator.java:98 | a record whose key is never a Token id has no span, so it is not emitted |
| DependencyNodeProofs.EmittedAreSources | src/main/java/gate/creole/DependencyNodeGenerator/DependencyNodeGenerator.java:98-102 | everything handed to add is a DependencyTreeNode with the record's ID and a Token's offsets, and no two share a TokenID or an ID |
| DependencyNodeProofs.EmitOneMore | src/main/java/gate/creole/DependencyNodeGenerator/DependencyNodeGenerator.java:97-109 | one more record visited adds it to exactly one of added or rejected if it has a span, and to neither otherwise |
| DependencyNodeProofs.WorkedExample | src/main/java/gate/creole/DependencyNodeGenerator/DependencyNodeGenerator.java:44-94 | the three-token chain with max id 100 gives records 101 (ROOT, children [102]), 102 (dobj, [103]) and 103 (nsubj, no consists) |
| ExportTemplate.IndexOf | src/main/java/gate/configurableexporter/ConfigurableExporter.java:198-199 | String.indexOf: a position it returns lies at or after the start, inside the string, and holds the character |
| ExportTemplate.IndexOfFirst | src/main/java/gate/configurableexporter/ConfigurableExporter.java:198-199 | no position between the start and the one returned holds the character; when none is returned, no position from the start on holds it |
| ExportTemplate.IndexOfAt | src/main/java/gate/configurableexporter/ConfigurableExporter.java:198-199 | the converse: the first position from the start holding the character is what indexOf returns |
| ExportTemplate.IndexOfNone | src/main/java/gate/configurableexporter/ConfigurableExporter.java:198-200 | with the character absent from the start on, indexOf returns -1 (None) |
| ExportTemplate.ParseFrom | src/main/java/gate/configurableexporter/ConfigurableExporter.java:196-213 | the scan leaves as many bridges as slots, or one more |
| ExportTemplate.ParseLine | src/main/java/gate/configurableexporter/ConfigurableExporter.java:195-197 | an absent or empty first line gives no bridges, no slots and no error |
| Exporter.ConfigurableExporter.Init | src/main/java/gate/configurableexporter/ConfigurableExporter.java:185-220 | the lists are reset; a null URL throws with the lists empty; an unreadable file is logged with the lists empty; otherwise the lists and the logged error are those of the scan of the first line, and the lists always satisfy the count condition |
| Exporter.ConfigurableExporter.ScanLine | src/main/java/gate/configurableexporter/ConfigurableExporter.java:196-213 | the while loop over upto appends in place exactly the bridges and slots ParseFrom gives, stops at the same exception, and leaves the lists as far as they got |
| ExportTemplateProofs.ScanNoBrace | src/main/java/gate/configurableexporter/ConfigurableExporter.java:200-202 | with no brace left, the rest of the line is the last bridge and the scan ends |
| ExportTemplateProofs.ScanStep | src/main/java/gate/configurableexporter/ConfigurableExporter.java:208-211 | a "{name}" step appends the text up to the "{" as a bridge and the text strictly between the braces as a slot, then goes on after the "}" |
| ExportTemplateProofs.ScanUnbalanced | src/main/java/gate/configurableexporter/ConfigurableExporter.java:203-207 | when exactly one kind of brace is left, the scan throws and appends nothing more |
| ExportTemplateProofs.ScanClosedFirst | src/main/java/gate/configurableexporter/ConfigurableExporter.java:209-210 | a "}" before the next "{" appends the bridge, then the slot's substring throws |
| ExportTemplateProofs.ScanSucceeds | src/main/java/gate/configurableexporter/ConfigurableExporter.java:197-211 | a scan step that does not throw found no brace at all, or a "{" before a "}" |
| ExportTemplateProofs.StepPieces | src/main/java/gate/configurableexporter/ConfigurableExporter.java:198-210 | the bridge a step cuts holds no brace and the slot name holds no "}" |
| ExportTemplateProofs.ScanSlotAt | src/main/java/gate/configurableexporter/ConfigurableExporter.java:198-211 | when the line holds bridge, "{", name, "}" from upto on, the two indexOf calls find those braces and the step cuts exactly that bridge and name, going on after the "}" |
| ExportTemplateProofs.ScanLastAt | src/main/java/gate/configurableexporter/ConfigurableExporter.java:198-202 | when the rest of the line is a bridge without braces, it is the last bridge and the scan ends without error |
| ExportTemplateProofs.ParseThenUnparse | src/main/java/gate/configurableexporter/ConfigurableExporter.java:195-213 | round trip: after a successful scan, bridge_i "{" name_i "}" in order, plus the trailing bridge, give back the line |
| ExportTemplateProofs.ParseWellFormed | src/main/java/gate/configurableexporter/ConfigurableExporter.java:195-213 | a successful scan gives as many bridges as slots or one more (non-empty) one, bridges without braces and slot names without "}" |
| ExportTemplateProofs.UnparseThenParseAt | src/main/java/gate/configurableexporter/ConfigurableExporter.java:195-213 | the scan from any position of a line that holds a well-formed template's text from there on gives back that template |
| ExportTemplateProofs.UnparseThenParse | src/main/java/gate/configurableexporter/ConfigurableExporter.java:195-213 | round trip the other way: the scan of a well-formed template's text gives back that template |
| ExportTemplateProofs.ParseSucceedsIff | src/main/java/gate/configurableexporter/ConfigurableExporter.java:195-213 | the scan succeeds exactly on lines that are the text of a well-formed template, and then gives that template |
| ExportTemplateProofs.ParseExample | src/main/java/gate/configurableexporter/ConfigurableExporter.java:195-213 | "N{P.g},{L}." gives bridges N , . and slots P.g and L |
| ExportTemplateProofs.ClosedBeforeOpenedExample | src/main/java/gate/configurableexporter/ConfigurableExporter.java:208-210 | "a}b{c" leaves the bridge "a}b", with its "}", and no slot |
| ExportTemplateProofs.UnbalancedExample | src/main/java/gate/configurableexporter/ConfigurableExporter.java:203-207 | "x{y" throws with both lists empty |
| ExportTemplate.SplitSlot | src/main/java/gate/configurableexporter/ConfigurableExporter.java:243-246 | the type has no "." and is the whole slot when there is no feature; otherwise the slot is type "." feature, split at the first "." |
| ExportTemplateProofs.SplitSlotExample | src/main/java/gate/configurableexporter/ConfigurableExporter.java:291-294 | "P.g.v" splits into type P and feature g.v |
| ExportTemplate.SlotValue | src/main/java/gate/configurableexporter/ConfigurableExporter.java:247-268 | a slot whose type has no annotation prints nothing |
| ExportTemplate.Interleave | src/main/java/gate/configurableexporter/ConfigurableExporter.java:240-241 | no contract: defines the slot loop that prints bridge i, then value i; `SubstituteUnparse` characterises it |
| ExportTemplate.Trailing | src/main/java/gate/configurableexporter/ConfigurableExporter.java:271-273 | no contract: defines the trailing bridge, printed when there is one more bridge than slots; `SubstituteUnparse` characterises it |
| ExportTemplate.Fill | src/main/java/gate/configurableexporter/ConfigurableExporter.java:240-273 | no contract: defines a line without its newline; `SubstituteUnparse` characterises it |
| ExportTemplate.RenderLine | src/main/java/gate/configurableexporter/ConfigurableExporter.java:240-274 | no contract: defines one printed line over the whole document or one instance span; `RenderedLineIsSubstitution` characterises it |
| ExportTemplate.Export | src/main/java/gate/configurableexporter/ConfigurableExporter.java:235-322 | no contract: defines the output of execute(), one line for the document or one line per instance; `Exporter.ConfigurableExporter.Execute` is proved equal to it |
| ExportTemplate.Lines | src/main/java/gate/configurableexporter/ConfigurableExporter.java:278-321 | no contract: defines the lines of the instances in document order; the loop of `Exporter.ConfigurableExporter.Execute` keeps its output equal to it |
| Exporter.ConfigurableExporter.WriteLine | src/main/java/gate/configurableexporter/ConfigurableExporter.java:240-274 | the loop prints bridge_i and v_i for each slot, then the trailing bridge if there is one, then a newline, which is RenderLine of the lists |
| Exporter.ConfigurableExporter.Execute | src/main/java/gate/configurableexporter/ConfigurableExporter.java:235-322 | with no instance type, one line looked up in the whole set; otherwise one line per instance in document order, looked up within its span |
| ExportTemplateProofs.SubstituteUnparse | src/main/java/gate/configurableexporter/ConfigurableExporter.java:289-320 | filling a well-formed template with its slot values is its text with each "{name}" replaced by the value |
| ExportTemplateProofs.RenderedLineIsSubstitution | src/main/java/gate/configurableexporter/ConfigurableExporter.java:240-274 | for a line that parsed, a rendered line is that configuration line with every "{name}" replaced by the slot's value, then a newline |

## Left out

- GATE objects (`Document`, `AnnotationSet`, `FeatureMap`, `Node`, `Factory`, `Utils.inDocumentOrder`) are foreign library code.
  - Annotations are plain values with integer offsets.
  - A node's `startNode`/`endNode` hold the offsets rather than `Node` objects.
  - In the exporter, "the first annotation of a type in document order, in a span or in the whole set" is the caller-given `FirstOf` function. The instance annotations are the caller-given `instances` function.
- The emitted `NodeAnnotation` has the whole record as its features. The annotation set's `add` is the caller-given `accepts` predicate; a rejected record is a thrown, caught exception.
- Order:
  - The traversal order of `getAnnotations()` is the order of the input sequence.
  - The iteration order of `tokenToDepNode.values()` is arbitrary, so added and rejected records are sets.
  - Whether `add` succeeds therefore cannot depend on what was added before in the same loop.
- The ID scan looks only at the default annotation set (`getAnnotations()`), so IDs in named annotation sets are not looked at. The model's input sequence is that default set.
- A `null` dependencies feature is modelled as an empty list, which the code treats the same way (no edges, no `consists`).
- `DependencyRelation` comes from an external plugin. It is a (target id, relation type) pair, and a null target id is not modelled.
- MaxAnnotationId: Java `int` arithmetic is unbounded here, so a wrap-around of `uniqueID` past 2^31-1 is not modelled.
- Logging to `System.out` and `printStackTrace` in both files is left out.
- Config file I/O, the output `PrintStream` and document content retrieval are left out.
  - The configuration file is given as `NoUrl`, `Unreadable` or its lines.
  - `Unreadable` leaves both lists empty. In the code, a `close()` that fails after the first line was scanned keeps the lists already built, and also logs the failure. The model does not separate that case.
  - The output stream is the returned string.
  - Java's `println()` ends a line with the platform line separator. The model always ends it with "\n".
  - A text that cannot be read prints as empty (`AnnView.text` is None).
- The annotation-set selection by `inputASName` in execute() is folded into `FirstOf`.
- `init()` of DependencyNodeGenerator only calls its superclass. The exporter's parameter getters and setters, and `setOutputURL`'s stream creation, are configuration plumbing.
- `interrupt()` is synchronized framework code; concurrency is not modelled.
- VPChunker.java is a transducer wrapper made only of setter overrides, with no logic of its own.
- The test sources are not part of this model: they test other components.
