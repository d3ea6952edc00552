# Zebflow: verified models of its algorithmic core

Dafny models of the parts of Zebflow whose correctness is not visible from any one function:
the automatic layout of a pipeline graph, the capture and redaction of run traces, typed class
notation, the strict YAML gate, canonical columns and the application of a schema document, the
build calendar and the error-message pattern. Each imperative routine is a method or a class
whose contract ties it to a mathematical definition; lemmas then state what that definition
promises. `dafny verify dfyconfig.toml` checks everything.

## How the files divide

- `Basics`: what several modules need and none of them is about.
- `Graphs`, `RankQueue`, `RankTheorems`, `RankCycles`, `RankLeast`, `LayoutRanks`, `RankBound`,
  `LevelSweeps`, `Layout`: `auto_tidy_pipeline_graph`. The queue of ranks is a step machine (`RankQueue.Run`) whose
  invariant counts how often every arc has been followed; the loops are proved to compute it.
- `PipelineModel`: the stored graph and the entry-node rule.
- `JsonValues`, `Text`: JSON trees and the string operations of the standard library.
- `Redactor`, `MaskRuns`, `SecretScan`, `TraceView`, `TraceSecrecy`, `TraceBudget`, `SecretPaths`,
  `RecordMasks`: trace capture, from one string to a whole run.
- `ClassSlots`, `ClassNotation`: slots, patterns, expansion, extracted words.
- `YamlGate`: event check and conversion. `BuildStamp`: the calendar loops. `ErrorPattern`: the
  message scanner.
- `SchemaApply`: statements against an abstract catalog. `ColumnSql`: names, kinds, types,
  defaults and column definitions.

Strings are sequences of characters, JSON objects are lists of members, and where a loop of the
original borrows or moves values the model passes them on. Library sorting is a stable insertion
sort with the same comparison.

## What the proofs found

- **The rank loop can run forever.** An entry node on a cycle is queued again each time round.
  Whether it does is decided before the call: from zero, let each node's firing count be what its
  parents' counts demand, one round per node; the loop ends exactly when one round more changes
  nothing, and the counts then are how often each node leaves the queue
  (`RankLeast.HaltsIffSettles`, `RankLeast.FiringsAreLeast`). Seen from the run, it never ends
  exactly when some step leaves a cycle all of whose counters are zero
  (`RankCycles.RunsForeverIffSpentCycle`). It always ends when no seed with an incoming edge leads
  to a cycle (`RankTheorems.HaltsWhenSeedsAvoidCycles`), a condition weaker than acyclicity and
  weaker than seeds without incoming edges. Under that condition every rank is below the number of
  nodes; the loop can also end without it and leave a rank as large as the number of nodes
  (`RankBound.RankBeyondNodes`).
- **Parent sweeps leave no trace.** The layout alternates parent and child sweeps four times. On
  an acyclic graph the outcome is that of one right-to-left sweep (`Layout.ChildrenDecideRows`).
- **A list of emissions is captured without the project's confidential values.** The comment at
  `src/pipeline/trace_capture.rs:160` says they never appear, whatever the level; `outputs` with
  any number of emissions other than one does not consult them
  (`TraceSecrecy.OutputsHideConfidentialIff`). The order in which they are listed (longest first,
  lines 162-165) never shows (`TraceSecrecy.TokenOrderIrrelevant`).
- **Some tokens can survive redaction.** A token can be found again in the output, given a list
  that names it and a text to suit, exactly when it starts or ends with the mask character or
  holds six of them in a row (`Redactor.SurvivesExactlyWhen`); no other token survives in any
  list, at any length limit (`Redactor.NoTokenSurvives`). When a run of mask characters is the
  only token, some text keeps it exactly when it is no longer than a mask
  (`MaskRuns.RunSurvivesExactlyWhen`); redacting again changes nothing exactly when the run is not
  a single character, and at every length limit exactly when it is at least as long as a mask
  (`MaskRuns.RunRedactedTwice`).
- **Object keys are written as they are.** Of a capture without exceptions, what is written shows
  a secret, the view's own words and keys aside, exactly when the key of a written member holds it
  (`TraceSecrecy.ShownExactlyInKeys`).
- **Masking a record by position can miss.** The secret paths declared for a payload are followed
  in the record of the outputs (`src/pipeline/engines/basic.rs:2288`). Whatever the payloads and
  the paths, that hides every declared position exactly when there is no emission, or one emission
  and arrays are not sampled (`RecordMasks.MasksExactlyWhen`). Two emissions `{"x": ...}` with the
  declared path `x` are missed (`RecordMasks.EmissionsAreMissed`), and so is the first element of
  a sampled array with the declared path `0` (`RecordMasks.SampleIsMissed`).
- **Expansion of class patterns gives up at the first `@{` that starts no slot.** A pattern
  expands to its instances exactly when no such `@{` stands before one of its slots
  (`ClassNotation.PatternExpandsIff`), and of a class value without white space exactly then every
  candidate is extracted (`ClassNotation.SolidVisibleIff`). Behind `@{}` every slot is lost:
  `@{}@{p|a}` has the candidate `@{}a`, which is not among the extracted words
  (`ClassNotation.ExpansionGivesUp`, `ClassNotation.SmallSlotIsMissed`).
- **A schema document can ask for a table before its schema exists.** The import takes a declared
  `schema` without comparing it with the table's name, so `geo.places` declared in schema `other`
  is refused in an empty database (`SchemaApply.MisnamedSchemaFails`,
  `SchemaApply.GeoPlacesFails`). For every document and database an application runs to its end
  exactly when each table and each graph it creates fits, a condition on the document, the catalog
  before the call and the tables found there (`SchemaApply.AppliesExactlyWhen`). For documents
  whose tables are created under their own names and whose edge tables refer only to the
  document's tables of rows or to existing tables, that is: every new table's schema is there or
  declared by some table, and the guess made about each graph is right
  (`SchemaApply.ClosedAppliesExactlyWhen`).
- **A second application is refused unless every table is found under the name it is looked up
  by** (`SchemaApply.SecondApplication`); it then creates nothing and issues no graph statement.
- **Normalising attributes is not idempotent on records.** A column of kind `bool` gains a
  declared type on the second pass; no emitted column definition changes, and the third pass
  changes nothing (`ColumnSql.Renormalising`).

## Model

| member | source | states |
|---|---|---|
| RankLeast.HaltsIffSettles | src/pipeline/layout.rs:113-129 | For every graph the queue loop ends exactly when the least firing counts, computed in one round per node, are unchanged by one round more |
| RankLeast.FiringsAreLeast | src/pipeline/layout.rs:113-129 | When it ends, each node has left the queue exactly as often as those counts say |
| RankCycles.RunsForeverIffSpentCycle | src/pipeline/layout.rs:113-129 | The queue loop never ends exactly when some step leaves a cycle of the graph on which every counter is zero, for every graph |
| RankCycles.CycleIsQueued | src/pipeline/layout.rs:122-127 | As long as a cycle has all its counters at zero, one of its nodes is in the queue |
| RankTheorems.HaltsIffBudget | src/pipeline/layout.rs:113-129 | The queue loop ends exactly when numbers of firings exist that satisfy every node's demand, given its parents' |
| RankTheorems.HaltsWhenSeedsAvoidCycles | src/pipeline/layout.rs:86-129 | The loop ends whenever no seed with an incoming edge leads to a cycle |
| RankTheorems.HaltsWhenAcyclicOrRooted | src/pipeline/layout.rs:86-129 | In particular on every acyclic graph and on every graph whose seeds have no incoming edge |
| RankTheorems.EntryOnCycleNeverHalts | src/pipeline/layout.rs:113-129 | Any two nodes that point at each other, entered at one that is declared, are queued again forever |
| RankTheorems.RanksAreLongestPaths | src/pipeline/layout.rs:79-129 | On an acyclic graph every rank is the length of the longest path ending at the node, although seeds with incoming edges leave the queue several times; ranks rise along every edge |
| RankTheorems.RootedFiresOnce | src/pipeline/layout.rs:113-129 | When no seed has an incoming edge every node leaves the queue at most once |
| RankQueue.RunInvariant | src/pipeline/layout.rs:113-129 | After every step the counters agree with the arcs followed, every rank is the length of a walk, and a node at rest has pushed its children past it |
| LayoutRanks.DrainQueue | src/pipeline/layout.rs:79-129 | The imperative loop over queue, counters and ranks computes the final ranks of the step machine on every graph on which it ends |
| LayoutRanks.PlaceRemnants | src/pipeline/layout.rs:131-145 | The placement pass gives each unranked node, in source order, the least rank above its ranked parents |
| LayoutRanks.EveryNodeRanked | src/pipeline/layout.rs:131-145 | After placement exactly the nodes have ranks, each the length of a walk ending there |
| LayoutRanks.AcyclicLayoutRanks | src/pipeline/layout.rs:79-145 | On an acyclic graph the ranks after placement are still the longest-path depths |
| LayoutRanks.RanksAlongSimpleWalks | src/pipeline/layout.rs:79-145 | Whenever no seed with an incoming edge leads to a cycle, each rank is the length of a path that repeats no node, and is below the node count |
| RankBound.RankBeyondNodes | src/pipeline/layout.rs:79-145 | Without that condition the bound can fail although the loop ends: three nodes, one waiting for itself and two seeds that point at each other, give one of the seeds rank three |
| LevelSweeps.SortOrders | src/pipeline/layout.rs:157-166 | Sorting a level leaves it ordered by barycentre, slot and source order |
| LevelSweeps.OrderedPairs | src/pipeline/layout.rs:157-182 | In an ordered level any earlier node comes before any later one by barycentre, slot and source order, not only its neighbour |
| LevelSweeps.OrderedUnique | src/pipeline/layout.rs:157-182 | With distinct source positions the ordered arrangement of a level is unique, whatever order it was in before |
| LevelSweeps.RoundsKeepNodes | src/pipeline/layout.rs:156-188 | After any number of rounds every level is a permutation of itself |
| LevelSweeps.RoundsNumber | src/pipeline/layout.rs:167-187 | After any positive number of rounds the order values of each level are exactly 0, 1, 2 and so on |
| LevelSweeps.LastSweepDecides | src/pipeline/layout.rs:156-188 | When ranks rise along edges, any number of rounds gives the levels that one right-to-left sweep gives from the start |
| LevelSweeps.RoundsSort | src/pipeline/layout.rs:171-182 | When ranks rise along edges, each final level is sorted by the final places of its nodes' children |
| LevelSweeps.OrderLevels | src/pipeline/layout.rs:155-188 | The four rounds of two sweeps, as loops, compute the rounds the lemmas speak of |
| Layout.BuildNeighbours | src/pipeline/layout.rs:51-77 | The tables built edge by edge hold every known node's parents and children in edge order, and the slot of the last edge of each pair |
| Layout.CollectSeeds | src/pipeline/layout.rs:106-111 | The guarded insertion keeps each root once, at its first place |
| Layout.BuildLevels | src/pipeline/layout.rs:147-153 | The levels hold the nodes of each rank in source order |
| Layout.FinishesExactlyWhen | src/pipeline/layout.rs:86-129 | The layout of a stored graph ends exactly when its least firing counts settle within one round per node, which is exactly when no step leaves a cycle with all counters at zero; always when no seed with an incoming edge leads to a cycle |
| Layout.NodesStandInGrid | src/pipeline/layout.rs:190-200 | With unique ids every node is written at the column of its rank and the row of its place in that level |
| Layout.NoSharedPosition | src/pipeline/layout.rs:190-200 | With unique ids no two nodes share a position |
| Layout.EdgesRunLeftToRight | src/pipeline/layout.rs:26-201 | On an acyclic graph the target of every edge stands at least one column right of its source |
| Layout.ChildrenDecideRows | src/pipeline/layout.rs:155-188 | On an acyclic graph the rows are those of one right-to-left sweep over source order, and each column is sorted by where children stand |
| Layout.WriteLevelsKeeps | src/pipeline/layout.rs:190-200 | Writing positions changes no id, kind, pin or configuration other than the two coordinates |
| Layout.PositionedReads | src/pipeline/layout.rs:231-248 | A positioned node reads its coordinates back and everything else as before, whatever `config` and `config.ui` were |
| Layout.TidyNodes | src/pipeline/layout.rs:31-200 | All phases together compute the layout the lemmas speak of |
| Layout.AutoTidyPipelineGraph | src/pipeline/layout.rs:26-201 | The graph is laid out in place; entries and edges stay, nodes keep everything but their position |
| PipelineModel.EntriesHaveNoIncoming | src/pipeline/model.rs:760-783 | Without declared entries the result is exactly the nodes no edge points at, or the first node when there is none; it is empty only for the empty graph |
| PipelineModel.EntriesReachEverything | src/pipeline/model.rs:760-783 | In an acyclic graph over its own nodes every node is reachable from a derived entry, and no derived entry has an incoming edge |
| Redactor.OverlappingSecretEnd | src/pipeline/trace_capture.rs:659-683 | The windowed fixpoint loop ends at the first position past the start that no occurrence of any token straddles |
| Redactor.RedactedPreview | src/pipeline/trace_capture.rs:620-652 | The output at a cap is the first so many characters of the redacted text, where pieces between cuts are a mask if a token starts there and one character otherwise; reported truncation means full length and source text not looked at |
| Redactor.MaskedIffCovered | src/pipeline/trace_capture.rs:615-652 | A character is masked exactly when some occurrence of a token contains it |
| Redactor.PlainPiece | src/pipeline/trace_capture.rs:644-649 | A piece in which no token starts is one character long |
| Redactor.OrderIrrelevant | src/pipeline/trace_capture.rs:615-619 | Neither the order of the tokens nor repetitions change the output or the truncation flag |
| Redactor.NoTokenSurvives | src/pipeline/trace_capture.rs:615-652 | No token that neither starts nor ends with the mask character nor holds a whole mask occurs anywhere in the output, at any cap, whatever else is listed |
| Redactor.RedactingTwice | src/pipeline/trace_capture.rs:615-652 | When all tokens are of that kind, redacting the output again changes nothing, at any cap |
| Redactor.SurvivesExactlyWhen | src/pipeline/trace_capture.rs:615-652 | Any token at all is left in the output by some list that names it and some text exactly when it starts or ends with the mask character or holds a whole mask |
| MaskRuns.RunSurvivesExactlyWhen | src/pipeline/trace_capture.rs:615-652 | When a run of mask characters is the only token, some text keeps it exactly when it is at most six long |
| MaskRuns.RunRedactedTwice | src/pipeline/trace_capture.rs:615-652 | With such a run as the only token, redacting every whole output again changes nothing exactly when the run is longer than one, and redacting every output cut at any cap changes nothing exactly when it is at least six long |
| Redactor.RedactLiteralSecrets | src/pipeline/trace_capture.rs:606-613 | Redacting a text of the run ignores empty tokens and applies the same definition up to the largest machine integer |
| SecretScan.Discover | src/pipeline/trace_capture.rs:368-399 | The explicit-stack scan collects the tokens of the recursive definition, in order and each once, and visits each non-private node exactly once, parents first |
| SecretScan.TokensAreDeclared | src/pipeline/trace_capture.rs:377-394 | A token is found exactly when an object among the non-private nodes declares it |
| SecretScan.DiscoveredTokens | src/pipeline/trace_capture.rs:368-399 | The same of the de-duplicated list, which never holds the empty token |
| TraceView.Render | src/pipeline/trace_capture.rs:453-528 | The recursive serialization computes the view: hidden, summarised, sampled, descended or redacted |
| TraceView.ViewNesting | src/pipeline/trace_capture.rs:415-528 | From any wire depth up to 113, a view adds nesting only up to 114 levels in all, counting the extra level of each sampled array |
| TraceSecrecy.CapturedTexts | src/pipeline/trace_capture.rs:222-250 | Every captured text stands in the payload at its path of keys; it reads as itself where a declared exception is a prefix of that path and the capture is not a configuration, and with all secrets struck out everywhere else, up to the limit |
| TraceSecrecy.CaptureHidesSecrets | src/pipeline/trace_capture.rs:222-250 | A captured text that shows a confidential value, or a token declared by any object of the payload, sampled away or not, stands at or below a declared exception of a payload that is not a configuration |
| TraceSecrecy.NothingExcepted | src/pipeline/trace_capture.rs:222-250 | A payload that declares no exception, and every configuration, shows no such secret in any text |
| TraceSecrecy.WrittenTexts | src/pipeline/trace_capture.rs:453-528 | Every text written, keys aside, is one of the view's own five words or a captured text |
| TraceSecrecy.WrittenHidesSecrets | src/pipeline/trace_capture.rs:222-250 | So no text written of such a capture holds such a secret, the view's own words aside |
| TraceSecrecy.KeysWritten | src/pipeline/trace_capture.rs:453-528 | Every key written is that of a member the view keeps or one of the view's own, and every kept member's key is written |
| TraceSecrecy.ShownExactlyInKeys | src/pipeline/trace_capture.rs:222-250 | Of a capture without exceptions, the texts and keys written, the view's own aside, show such a secret exactly when the key of a written member holds it |
| TraceSecrecy.ViewAccounted | src/pipeline/trace_capture.rs:415-451 | From any context excepted exactly when a declared exception is a prefix of its keys, every text of the view stands in the value at its path and reads as that path allows |
| TraceSecrecy.ExceptionsFollowPaths | src/pipeline/trace_capture.rs:416-421 | Entering a member or an element keeps a context excepted exactly when a declared exception is a prefix of its keys; array indices do not count |
| TraceSecrecy.TokenOrderIrrelevant | src/pipeline/trace_capture.rs:161-168 | The order in which tokens are listed never shows in a view |
| TraceSecrecy.MaskedIsBlank | src/pipeline/trace_capture.rs:453-463 | Below a masked value no text and no number of the payload is left, however deep and whatever the exceptions |
| TraceSecrecy.SensitiveMemberIsBlank | src/pipeline/trace_capture.rs:421-446 | What stands under a sensitive key is blank unless its own path is excepted |
| TraceSecrecy.ViewIsHonest | src/pipeline/trace_capture.rs:465-490 | In every sampled array, at any depth, shown and omitted counts add up to the length and something is omitted |
| TraceSecrecy.CapturedNesting | src/pipeline/trace_capture.rs:222-250 | A captured payload or configuration nests at most 114 containers, whatever the payload and the depth setting |
| TraceSecrecy.OutputsNesting | src/pipeline/trace_capture.rs:254-263 | Recorded outputs nest at most 114 containers for one emission and 117 otherwise |
| TraceSecrecy.OutputsHideConfidentialIff | src/pipeline/trace_capture.rs:254-263 | A confidential value is kept out of all outputs of a given number, declared exceptions aside, exactly when that number is at most one or the value is longer than the text limit |
| TraceSecrecy.RenderEmissions | src/pipeline/trace_capture.rs:707-756 | Each emission is viewed with the secrets of its own payload only, the list sampled like an array |
| TraceBudget.BudgetsHold | src/pipeline/trace_capture.rs:150-172 | Over every sequence of calls, the bytes kept since the start and those since the last node began, plus what is left, stay within the run and node limits |
| TraceBudget.OverflowSticks | src/pipeline/trace_capture.rs:265-284 | After an overflow nothing is recorded until the next node begins |
| TraceBudget.RunStaysSpent | src/pipeline/trace_capture.rs:222-225 | Once the run allowance is gone nothing is recorded, whatever nodes begin |
| TraceBudget.CapturesReadBack | src/pipeline/trace_capture.rs:265-283 | With a parser that reads back trees with distinct keys and proper numbers of fewer than 128 levels, what is stored of such a payload or configuration is the view itself |
| TraceBudget.OutputsReadBack | src/pipeline/trace_capture.rs:254-283 | Likewise of the outputs of a node, however many emissions there are |
| TraceBudget.ViewIsProper | src/pipeline/trace_capture.rs:453-528 | The view of a payload with distinct keys in every object and proper numbers is written as a tree with distinct keys and proper numbers |
| TraceBudget.CappedBuffer.Write | src/pipeline/trace_capture.rs:295-302 | A chunk is taken whole when it fits and refused whole when not |
| TraceBudget.WriteAll | src/pipeline/trace_capture.rs:265-271 | Writing chunk by chunk succeeds exactly when all the bytes fit, and then the buffer holds them |
| TraceBudget.TraceCapture.Encode | src/pipeline/trace_capture.rs:265-284 | The answer is the reread view when its bytes fit the smaller allowance and the fixed marker otherwise; both counters follow the budget machine and never underflow |
| TraceBudget.TraceCapture.CaptureMode | src/pipeline/trace_capture.rs:222-250 | A capture answers the view of the payload with its own and the project's secrets, or the marker when no allowance is left, and gives the confidential list back |
| TraceBudget.TraceCapture.BeginNode | src/pipeline/trace_capture.rs:170-172 | A node's beginning renews the node allowance only |
| TraceBudget.TraceCapture.Config | src/pipeline/trace_capture.rs:215-220 | An empty configuration records nothing and costs nothing; any other is captured in configuration mode |
| TraceBudget.TraceCapture.Outputs | src/pipeline/trace_capture.rs:254-263 | One emission is captured as a payload, any other number as a list |
| SecretPaths.Mask | src/pipeline/trace_capture.rs:560-588 | Visiting the named members or elements one by one computes the masked tree |
| SecretPaths.OneMorePath | src/pipeline/trace_capture.rs:545-588 | Masking one more path after others is the same as following all of them in step |
| SecretPaths.MaskSecretPaths | src/pipeline/trace_capture.rs:545-558 | Masking a list of paths, one after another, is following the set of them in step |
| SecretPaths.PathOrderIrrelevant | src/pipeline/trace_capture.rs:545-558 | Lists naming the same paths mask alike, in any order and with repetitions |
| SecretPaths.MaskingTwice | src/pipeline/trace_capture.rs:545-558 | Masking again with the same paths or fewer changes nothing |
| SecretPaths.MaskedPositions | src/pipeline/trace_capture.rs:533-588 | Exactly the outermost positions a path leads to are replaced, what stood below is gone, and every other position keeps its value, keys or length |
| RecordMasks.MasksExactlyWhen | src/pipeline/engines/basic.rs:2284-2292 | Under limits that settings allow, masking the recorded outputs hides every declared position of every payload, whatever payloads and paths, exactly when there is no emission, or one and arrays are not sampled |
| RecordMasks.MasksDeclared | src/pipeline/trace_capture.rs:545-588 | In any view in which no path has to go through a sampled array, masking what is written masks every position the paths lead to |
| RecordMasks.SampleIsMissed | src/pipeline/trace_capture.rs:465-490 | The first element of an array that was sampled is written although the declared path leads to it, at every sample size |
| RecordMasks.EmissionsAreMissed | src/pipeline/trace_capture.rs:254-263 | With two emissions or more, a member of a payload is written although the declared path leads to it |
| ClassSlots.FindSlotBodyEnd | src/rwe/class_notation.rs:143-157 | The bracket-counting loop finds the end the recursive definition finds |
| ClassSlots.BodyEndMeaning | src/rwe/class_notation.rs:143-157 | A body ends at the first closing brace with no bracket open before it |
| ClassSlots.SplitSlotSegments | src/rwe/class_notation.rs:159-189 | The loop yields the trimmed segments, a blank last one dropped |
| ClassSlots.SegmentsJoin | src/rwe/class_notation.rs:159-189 | Untrimmed segments joined by bars are the body again |
| ClassSlots.SegmentsAreUncut | src/rwe/class_notation.rs:159-189 | No segment has a bar outside brackets left in it |
| ClassSlots.SlotLocal | src/rwe/class_notation.rs:26-71 | Whether a slot starts a text, and which, depends on nothing after the slot |
| ClassSlots.ParseTypedClassSlot | src/rwe/class_notation.rs:26-71 | Parsing at an index is parsing the rest of the text from its start, failures included |
| ClassNotation.SplitClassPatterns | src/rwe/class_notation.rs:112-141 | The cursor loop yields the sources of the maximal runs of characters and slots without white space |
| ClassNotation.FrontReadsAlone | src/rwe/class_notation.rs:112-141 | Any front part of a read class value reads the same on its own, so patterns can be parsed again |
| ClassNotation.ExpandIsInstances | src/rwe/class_notation.rs:93-110 | Expansion yields the instances of the pattern, in order, with slots after the first malformed `@{` taken as text |
| ClassNotation.ExpandClassPattern | src/rwe/class_notation.rs:93-110 | The recursive method with its two nested loops computes the expansion |
| ClassNotation.PatternExpandsIff | src/rwe/class_notation.rs:93-110 | A pattern expands to exactly its instances if and only if no malformed `@{` comes before one of its slots |
| ClassNotation.ExpansionGivesUp | src/rwe/class_notation.rs:93-110 | Behind `@{}` no slot is expanded: the first option makes a candidate, and the extracted words are those of the source as written |
| ClassNotation.CandidateMissed | src/rwe/class_notation.rs:73-110 | So a candidate without white space that differs from its source is not among the extracted words |
| ClassNotation.SmallSlotIsMissed | src/rwe/class_notation.rs:73-110 | For instance with the slot whose single option is `a`: the candidate `@{}a` is not extracted |
| ClassNotation.TokensOfFrozen | src/rwe/class_notation.rs:73-91 | For every class value, the extracted words are those of all instances of what expansion sees |
| ClassNotation.EveryCandidateVisible | src/rwe/class_notation.rs:73-91 | Unless a malformed `@{` comes before a slot of one pattern, the extracted words are exactly the words of the class value under every pick of one option per slot |
| ClassNotation.SolidVisibleIff | src/rwe/class_notation.rs:73-110 | For every class value without white space, which is one pattern, the extracted words are exactly its candidates if and only if no malformed `@{` comes before one of its slots |
| ClassNotation.ExtractTailwindTokensFromClassValue | src/rwe/class_notation.rs:77-91 | The extraction loops collect those words |
| YamlGate.ValidateYamlEvents | src/contracts/io.rs:195-247 | The event loop reports the first error of the event machine, or that there is not one document |
| YamlGate.AdmittedExactlyWhen | src/contracts/io.rs:195-259 | A one-document stream is admitted exactly when its tree has no anchor, alias or tag, its events fit the event limit and its containers nest at most 128 deep |
| YamlGate.DecrementNeverSaturates | src/contracts/io.rs:235-237 | On the stream of a document a closing event always finds a positive depth |
| YamlGate.YamlToJson | src/contracts/io.rs:261-298 | The recursion with its counter threaded through computes the conversion and the count, errors included |
| YamlGate.AdmittedIsNeverTooComplex | src/contracts/io.rs:261-298 | What the event check admits is never too complex to convert; conversion succeeds exactly for string keys, and its counter ends at the number of values |
| BuildStamp.Calendar | build.rs:61-102 | Year, month and day count back to the day number, the month is 1 to 12, the day valid for month and leap rule, and the month loop always breaks |
| BuildStamp.YearStartClosed | build.rs:69-78 | Adding year lengths by the leap rule gives the closed form with divisions by 4, 100 and 400 |
| BuildStamp.EarlierIsFewerSeconds | build.rs:61-103 | One valid date and time precedes another exactly when it counts back to fewer seconds |
| BuildStamp.CalendarIsMonotone | build.rs:61-103 | Later timestamps never give earlier moments, and moments are equal exactly within one minute |
| BuildStamp.FormatBuildTimestamp | build.rs:61-104 | The stamp is that of the moment the timestamp counts back from |
| BuildStamp.SameStampSameMinute | build.rs:103-103 | Two timestamps have the same stamp exactly when they fall in the same minute |
| ErrorPattern.ErrorMessagePattern | src/platform/model.rs:3867-3897 | The peeking scan with its quote state computes the pattern |
| ErrorPattern.DigitsDoNotShow | src/platform/model.rs:3864-3897 | Replacing a digit run outside quotes by another non-empty one does not change the pattern |
| ErrorPattern.QuotedValuesDoNotShow | src/platform/model.rs:3864-3897 | Replacing a quoted value by another without that quote does not change the pattern |
| ErrorPattern.PatternOfPattern | src/platform/model.rs:3867-3897 | A pattern is its own pattern, even when the 200-character cut falls inside a quoted value |
| SchemaApply.ApplySchemaExport | src/platform/sekejap.rs:1381-1449 | The application runs exactly the planned statements up to the first refusal and reports what it created and skipped |
| SchemaApply.NamesInOrder | src/platform/sekejap.rs:1396-1439 | Schemas and graphs are visited each once, in alphabetical order |
| SchemaApply.CreatesExactlyWhen | src/platform/sekejap.rs:1409-1420 | Tables are created one after another without a refusal exactly when each is new, its schema is there and every table it refers to is there by then |
| SchemaApply.AppliesExactlyWhen | src/platform/sekejap.rs:1395-1440 | For every document, every database and whatever tables are found in it, the application runs to its end exactly when each table and each graph fits; the resulting catalog is given in full |
| SchemaApply.ClosedAppliesExactlyWhen | src/platform/sekejap.rs:1395-1440 | In a database whose names are found as they are, for reference-closed documents whose tables are created under their own names, that is exactly when every new table's schema is there or declared and every guess about a graph is right |
| SchemaApply.MisnamedSchemaFails | src/platform/sekejap.rs:1302-1311 | A table whose name says a schema that is not there and is not the one declared for it is refused, although the document is reference-closed and no guess is wrong |
| SchemaApply.GeoPlacesFails | src/platform/sekejap.rs:1302-1311 | For instance `geo.places` declared in schema `other`, in an empty database |
| SchemaApply.CreatedPlusSkipped | src/platform/sekejap.rs:1409-1420 | Created and skipped tables together are exactly the document's; created names are new and distinct, skipped ones were there or had just been created |
| SchemaApply.SecondApplication | src/platform/sekejap.rs:1370-1449 | After a first application that ran to its end, a second one that finds at least what the first one found is refused nothing exactly when every table of the document is found; it then creates no table, issues no graph statement and leaves the catalog as it is |
| SchemaApply.FoundGrows | src/platform/sekejap.rs:985-1010 | What the database lists after an application that ran to its end includes what it listed before |
| SchemaApply.CanonicalNamesAreFound | src/platform/sekejap.rs:985-1010 | When every existing name is canonical, the tables found are exactly the tables there are |
| SchemaApply.NamedAreFound | src/platform/sekejap.rs:1286-1295 | Every table of a document whose tables are created under their own names is found afterwards |
| SchemaApply.SecondCreatesNothingIff | src/platform/sekejap.rs:1384-1420 | Whatever was there before, a second application finds nothing to create exactly when every table is created under the name it is looked up by |
| ColumnSql.SlugIsSlug | src/platform/model.rs:4357-4371 | A canonical name has lower-case letters, digits, dashes and underscores only, and no dash at either end |
| ColumnSql.SlugStays | src/platform/model.rs:4357-4371 | A canonical name is its own canonical name |
| ColumnSql.DefaultIsOneOf | src/platform/sekejap.rs:626-648 | A default is empty, a number, one of six keywords or exactly one string literal; a literal quoted here decodes to the trimmed input |
| ColumnSql.DefaultTwice | src/platform/sekejap.rs:631-648 | A default written twice is what it was written once |
| ColumnSql.SqlTypeStays | src/platform/sekejap.rs:583-624 | Every type the grammar writes, it reads back as the same type |
| ColumnSql.MapDeclaredKindTwice | src/platform/sekejap.rs:485-510 | Mapping a kind twice is mapping it once, vector lengths included |
| ColumnSql.CanonicalKindTypes | src/platform/sekejap.rs:515-534 | A canonical kind is itself a type exactly for `boolean` and sized vectors, and then it is the type its column has anyway |
| ColumnSql.IndexTypesTwice | src/platform/sekejap.rs:659-666 | Canonical index kinds stay as they are |
| ColumnSql.KeepsFirsts | src/platform/sekejap.rs:650-684 | Each admissible name keeps its first record, in order of first mention |
| ColumnSql.Normalize | src/platform/sekejap.rs:650-685 | The loop with its set of seen names yields exactly those first records, in canonical form |
| ColumnSql.CanonicalOnceMore | src/platform/sekejap.rs:667-681 | On a canonical record a second pass changes at most the declared type, exactly when none was declared and the kind is a type, and never the column definition |
| ColumnSql.Renormalising | src/platform/sekejap.rs:650-685 | Normalising again keeps every column, its place and its definition; which records change is given exactly; a third pass changes nothing |
| ColumnSql.BoolGainsType | src/platform/sekejap.rs:671-677 | A column of kind `bool` with nothing declared gains `BOOLEAN` on the second pass |

## Left out

- Redactor.RedactedPreview: UTF-8 byte lengths and boundary adjustments are not modelled; texts are characters, and windows are measured in them.
- LevelSweeps.OrderLevels: barycentres are exact rationals, so ties caused by rounding of 64-bit floats are not modelled.
- Layout.AutoTidyPipelineGraph: assumes the queue loop ends, since a method cannot be proved otherwise; when it does is stated by Layout.FinishesExactlyWhen. Notes and metadata of the graph, which the layout does not touch, are not fields of the model.
- Layout.BuildLevels: levels without nodes are kept as empty lists, where the original map has no entry; they are sorted and written as nothing.
- SecretPaths.Mask: the tree is rebuilt instead of updated in place, so aliasing is not modelled. Likewise nodes written by the layout are replaced in the graph's list.
- TraceBudget.CapturesReadBack: the JSON library is a parameter, and its reading back of shallow trees with distinct keys and numbers that it prints is an assumption of this lemma and of TraceBudget.OutputsReadBack alone.
- TraceBudget.TraceCapture.CaptureMode: confidential values are assumed non-empty, as the caller filters them by length; their sorting is dropped, since TraceSecrecy.TokenOrderIrrelevant shows that it cannot be observed.
- TraceSecrecy.CaptureHidesSecrets: speaks of texts, not of the digits of numbers, which the original writes as they are; when object keys show a secret is stated by TraceSecrecy.ShownExactlyInKeys.
- ClassNotation.EveryCandidateVisible: holds in one direction for class values of several patterns, because with a malformed `@{` the words lost from one pattern may happen to be supplied by another; the exact condition is stated per pattern by ClassNotation.PatternExpandsIff, and for class values of one pattern by ClassNotation.SolidVisibleIff.
- SchemaApply.ApplySchemaExport: SQL text, the text of columns, index options, the import's validation of identifiers and the repository synchronisation are not part of the catalog model, which starts from imported definitions, whatever their names, schemas, columns and references are.
- ColumnSql.CanonicalOnceMore: the error a vector column without a length gives is modelled as no definition; `CREATE TABLE` and edge-table text around the columns is not modelled.
- YamlGate.YamlToJson: number conversion is an uninterpreted atom, and duplicate keys, which the YAML library refuses before, do not occur.
- Sharing of object members: objects are lists whose lookups find the first member, not sorted maps.
- Capture levels, validation of settings and their resolution: one-branch functions without interaction.
- The sekejap engine, SQLite, serde, the YAML parser, the file system, HTTP, the command line and the sandbox are not part of this model.
