# CrossRev verification

CrossRev drives two legs, a review leg and a resolve leg, over a pull request.
This project models the parts of it whose correctness is not visible in one
function and proves what they promise:

- **The diff engine** (`Header`, `Quoting`, `Parser`, `SidePaths`, `Structure`,
  `Selection`, `Exclusions`, `Runs`, `Numbering`, `Clip`, `Windows`, `ClipFiles`,
  `ClipDiff`, `ClipText`, `ClipExact`, `Preambles`, `Clipper`, `Views`). A unified
  diff is parsed in one pass, clipped to a window around its changes and written
  out again, filtered by path, numbered for a reader and searched for anchors.
  Bytes are sequences of `char`, one for each byte.
- **The line-span algebra** (`Spans`, `SpanOrders`, `SpanGroups`), a set of lines
  kept as merged intervals.
- **The configuration** (`Trees`, `Objects`, `Merger`, `Decode`, `Decoder`,
  `DecodedParts`, `Anchors`, `CycleErrors`, `Positional`, `MergeValues`, `Decimal`,
  `Literals`). A YAML node graph, cyclic ones included, is decoded into ordered
  objects, layers are merged, and numbers are rewritten as text. Objects live on the
  heap; what a set of them holds is reasoned about through a snapshot of their
  fields.
- **Paths** (`Paths`, `Landing`, `Verdicts`), normalised on their text and then
  resolved on an abstract file system.
- **The loop** (`Passes`, `Cycle`, `CycleRuns`, `Decisions`) as a protocol over
  traces, and the **label protocol** of the scheduled sweep and the restart command
  (`Labels`, `Watchdog`, `Restart`, `Interleaving`, `SweepRuns`).
- **Credential staging** (`Staging`) and the **daily count** (`Count`).

Code that changes things step by step is modelled by methods and classes. Each
method is proved equal to, or against, a specification, and the theorems are
about that specification. What a specification computes is pinned in turn by
lemmas that do not name it. The outside world is a function of everything that
happened before: a loader, a leg, a forge or a file system may answer or refuse
each call as it likes, so a theorem about one run is about every environment.

## What the proofs found

Where the code and its comments part ways the model follows the code.

- A clipped diff re-parses "with the numbers the reviewer will quote"
  (internal/diff/clip.go:11-12) only where the two header readers agree. The
  exact condition is `ClipExact.HunkFaithfulExactlyWhen` for a hunk and
  `ClipExact.DiffFaithfulExactlyWhen` for a whole diff; `ClipExact.ClipCanRenumber` is a
  hunk where it fails. Texts are never lost (`ClipText.ClipLosesNoText`).
- The same comment says that anything before the first `diff --git` drops. It
  survives exactly when a side line in it names a path and one of its hunks has an
  unreadable header or a changed line (`Preambles.PreambleSurvivesExactlyWhen`);
  `Preambles.PreambleCanSurvive` is such a diff.
- `MergeLineSpans` adds one to a span's end, which wraps at the largest int, so
  its result is canonical exactly when every valid span that ends there starts
  above all others (`Spans.MergesCanonicalExactlyWhen`, `Spans.MergeCanOverlap`). What
  it covers is right even then (`Spans.MergesShows`, `Spans.CoversSpanIsEveryLine`),
  and it still begins with the canonical list (`SpanGroups.MergeBeginsCanonical`).
- For the same reason a union can depend on the order of its operands, and even on
  the sort (`SpanOrders.UnionNeedNotCommute`): exactly when two different spans
  start alike and one ends at the largest int (`SpanOrders.UnionCommutesExactlyWhen`).
  It can depend on their grouping (`SpanGroups.UnionNeedNotAssociate`): the lines for
  which it never does are those without both of the two largest
  (`SpanGroups.UnionAssociatesExactlyWhen`).
- `scientificString` keeps a number exactly when its adjusted exponent neither
  wraps nor is the least int (`Decimal.ValueKeptExactlyWhen`,
  `Decimal.ExponentCanWrap`).
- The sweep finds its leg by a substring of the joined labels and its pull
  requests by a prefix of one label, so a foreign label can mislead it either way
  (`Interleaving.ForeignLabelMisleads`, `Interleaving.PrefixLabelMiscounts`). Sweeps and
  restarts keep the labels and the counts in order exactly when the pull request is
  stopped or carries no such label (`Interleaving.KeptExactlyWhen`, and over whole
  runs on a forge `SweepRuns.RunsKeepOrderExactlyWhen`).
- A restart whose newest open claim carries a leg text that spells no wait clears
  the halt and puts no wait back, yet answers that it restarted
  (`Interleaving.LeglessRestartStrands`, `Restart.LeglessExactlyWhen`). A run is sound
  exactly when no such restart takes effect (`Interleaving.EveryInterleavingIsSound`,
  `Interleaving.KeptUnnamedExactlyWhen`).
- A review whose verdict is not `converged` can be reported as converged although
  its own marker breaks its coverage promise (`Passes.ReportedWithoutCoverage`);
  exactly which markers rule that out is `Passes.ReportKeepsCoverageExactlyWhen`.
- Undoing two prepares in the order they were made can leave a variable pointing
  at a removed directory (`Staging.InOrderUndoExactlyWhen`).

## Model

| member | source | states |
|---|---|---|
| Header.Number | internal/diff/parser.go:296-324 | the index loop reads the longest numeric prefix of a field, held at the ends of the 64-bit range instead of wrapping |
| Header.DistanceSaturates | internal/diff/anchor.go:127-138 | the wrapping subtraction is corrected: the gap is the true distance, held at the largest int |
| Header.WrittenHeaderReads | internal/diff/clip.go:230-324 | a header the clipper writes reads back, through the clipper's reader and the parser's, as the starts and lengths written |
| Header.ReadableExactlyWhen | internal/diff/clip.go:275-314 | the clipper reads a header if and only if a second `@@` closes it and between the two stand at least two fields, the first after a minus and the second after a plus |
| Header.ReadersDisagreeUnspaced | internal/diff/clip.go:275-300 | concrete headers, for every pair of starts, off which the parser and the clipper take different starts |
| Quoting.Unquote | internal/diff/parser.go:375-430 | the decoding loop computes the specified unquoting, octal escapes of up to three digits included |
| Quoting.HeaderPathInvertsGit | internal/diff/parser.go:355-430 | for every path of bytes, reading the plain or C-quoted side line git writes, with or without its tab, gives the path back |
| Parser.Diff.Parse | internal/diff/parser.go:78-154 | one pass over the records leaves exactly the lines, sections and widest number the sections of the input determine |
| SidePaths.OldPathIs | internal/diff/parser.go:118-124 | in a parsed diff a file's old path is the one git wrote, under `a/`, plain or quoted, on the last `--- ` line above its hunks |
| SidePaths.NewPathIs | internal/diff/parser.go:118-124 | and its new path the one under `b/` on the last `+++ ` line |
| SidePaths.AbsentSides | internal/diff/parser.go:355-365 | a side whose line names `/dev/null`, and one without a line, has the empty path |
| Parser.Diff.KeepBody | internal/diff/parser.go:190-207 | appends one numbered body line and widens by each number it carries, changing nothing else |
| Parser.Diff.TakeHeader | internal/diff/parser.go:78-154 | a record that opens a section or a hunk, or names a path, extends lines, sections and counters as the grouped input does |
| Parser.Diff.TakeBody | internal/diff/parser.go:120-154 | a body record of an open hunk gets the old and new number due to it and moves the counters past it |
| Numbering.LinesAreNumbered | internal/diff/parser.go:120-154 | in every parsed diff each body line carries, on each side it exists on, the start its own hunk's header gives plus the count of earlier body lines of the hunk that exist there, held at the largest int |
| Runs.NumbersRise | internal/diff/parser.go:120-154 | numbers never fall along a hunk, on either side |
| Structure.RecordsInvertEmit | internal/diff/parser.go:218-227 | records written newline-ended read back as themselves |
| Structure.EmitInvertsRecords | internal/diff/parser.go:218-227 | records rejoined give the input back, newline-ended |
| Structure.ChunksLoseNothing | internal/diff/parser.go:78-154 | grouping into sections and hunks keeps every record, in order |
| Structure.FilesInvertFlat | internal/diff/parser.go:78-154 | well-formed files laid out one after another are parsed as the same files |
| Selection.HitsLoop | internal/diff/exclude.go:67-83 | the loop answers whether the path is a pattern or lies under one as a directory |
| Selection.Excluded | internal/diff/exclude.go:24-64 | the lines written are the files with neither side hit by a non-empty trimmed pattern, as bytes |
| Selection.Only | internal/diff/only.go:17-34 | the lines written are the files one of whose sides is on the list, as bytes |
| Selection.WriteKept | internal/diff/exclude.go:50-64 | writing the lines of kept sections gives their records, newline-ended, in order |
| Selection.SelectionParses | internal/diff/exclude.go:24-64 | parsing a selection yields exactly the surviving files with unchanged records, and so unchanged paths and numbers |
| Selection.ExcludedTwice | internal/diff/exclude.go:24-64 | excluding p and then q is excluding p and q together, for every input and every pair of lists |
| Selection.ExcludedOnlyCommute | internal/diff/only.go:17-34 | excluding and keeping commute, byte for byte |
| Exclusions.ExcludedHolds | internal/diff/exclude.go:24-64 | an exclusion leaves in exactly the files neither of whose paths is named by a pattern, or lies under one, counted in whole components |
| Exclusions.OnlyHolds | internal/diff/only.go:17-34 | a selection keeps exactly the files with a side on the list |
| Exclusions.SlashMakesNoDifference | internal/diff/exclude.go:24-48 | a slash at the end of a path excludes nothing more and nothing less, wherever it stands in the list |
| Exclusions.SiblingStays | internal/diff/exclude.go:67-83 | a file whose name only begins with a pattern's stays in |
| Runs.RunsMaximal | internal/diff/clip.go:176-210 | every emitted run is kept throughout and cannot be extended on either end |
| Runs.SameRun | internal/diff/clip.go:145-210 | a kept context line and a changed line within the radius of it fall in one run |
| Runs.NoRunOpensOnNote | internal/diff/clip.go:145-152 | no run opens on a `\` annotation |
| Runs.RunDecidesAlone | internal/diff/clip.go:145-174 | a row's fate at a smaller radius is decided by its own run alone |
| Runs.RunKeeps | internal/diff/clip.go:145-174 | the window computed inside one run is the whole hunk's window restricted to it |
| Runs.KeepWider | internal/diff/clip.go:145-174 | a larger radius keeps whatever a smaller one keeps |
| Windows.WindowEmitted | internal/diff/clip.go:118-210 | a clip emits separate stretches of the hunk's body, each under a header that reads back as its starts and line counts with the hunk's function text; every changed record, every context record within the radius of one on the side that one is on, and their annotations are emitted, and where no number saturates nothing else is |
| Windows.CloseContextStays | internal/diff/clip.go:145-174 | a context record at most the radius away from a changed one, counted in records with only context between, is among them |
| Clip.RunRowsKeepNumbers | internal/diff/clip.go:212-273 | under its recomputed header a run's rows carry the numbers they had in the whole hunk |
| Clip.RunHeaderSettles | internal/diff/clip.go:226-255 | the header recomputed for a run of a run is the run's own header |
| Clip.ClipRunAgain | internal/diff/clip.go:118-210 | an emitted hunk clipped again at its radius is left as it is |
| Clip.ClipHunkReads | internal/diff/clip.go:118-210 | parsing what a clip emits of a hunk gives the kept rows, in order |
| ClipFiles.KeptInRuns | internal/diff/clip.go:145-210 | rows a narrower window keeps all lie inside the runs of the wider one |
| ClipFiles.ClipHunkNarrower | internal/diff/clip.go:118-210 | clipping the hunks of a wide clip narrowly keeps what clipping the hunk narrowly keeps |
| ClipDiff.ClipParses | internal/diff/clip.go:22-42 | parsing a clipped diff yields exactly the clipped files, with their prologues |
| ClipDiff.ClipTwice | internal/diff/clip.go:22-42 | clipping twice at one radius is clipping once, byte for byte, on every input |
| ClipDiff.ClipComposes | internal/diff/clip.go:22-42 | clipping at R and then at r <= R shows the same files and numbered body lines as clipping at r |
| ClipDiff.KeptExactlyWhenChanged | internal/diff/clip.go:145-174 | something of a hunk is kept if and only if one of its lines is added or removed, whatever the radius and the starts |
| ClipDiff.ClipFaithful | internal/diff/clip.go:8-42 | where both readers take the same starts off the header of every changed hunk of a named file, the clipped diff parses to exactly the window of each named file, with the text, sides and numbers of the whole diff |
| ClipDiff.ClipLosesNoChange | internal/diff/clip.go:8-42 | there, the added and removed lines of named files keep their numbers too |
| ClipText.ClipLosesNoText | internal/diff/clip.go:8-42 | on every diff, whatever its headers, no added or removed line of a named file is lost and their texts keep their order |
| ClipText.UnreadableHunkSurvives | internal/diff/clip.go:118-126 | a hunk whose header cannot be read is in the parsed output verbatim, in its own file |
| ClipExact.HunkFaithfulExactlyWhen | internal/diff/clip.go:118-255 | a clipped hunk reads back with the parser's numbers if and only if the first kept line on each side has one number by both readings of the header |
| ClipExact.DiffFaithfulExactlyWhen | internal/diff/clip.go:8-42 | the whole clipped diff parses to the kept lines with the parser's numbers if and only if that holds of every hunk of every named file |
| ClipExact.ClipCanRenumber | internal/diff/clip.go:275-300 | a concrete hunk whose removed line is renumbered by a clip |
| Preambles.ClipHunksLeft | internal/diff/clip.go:118-210 | a clip leaves something of a list of hunks if and only if one of them has an unreadable header or an added or removed line |
| Preambles.PreambleSurvivesExactlyWhen | internal/diff/clip.go:8-42 | the records before the first `diff --git` survive a clip if and only if a side line among them names a path and their hunks leave something, and then as the clipped file they make |
| Preambles.PreambleCanSurvive | internal/diff/clip.go:8-42 | a concrete diff with no `diff --git` line that survives a clip at any radius |
| Clipper.SplitSection | internal/diff/clip.go:79-98 | one file's lines divide into the prologue and hunks the parse grouped |
| Clipper.ReadRows | internal/diff/clip.go:120-143 | the loop numbers a hunk's body as the parser numbers it from the same starts |
| Clipper.MarkKept | internal/diff/clip.go:145-174 | the filled array is the window: changes, context near one, and annotations with their line |
| Clipper.Advance | internal/diff/clip.go:212-224 | the counters move past one record by the sides it exists on |
| Clipper.RunHeaderLine | internal/diff/clip.go:226-255 | the text written for a run's header is the specified one, from the counters the walk holds |
| Clipper.EmitRuns | internal/diff/clip.go:176-210 | the emission loop writes every maximal run under its own header, in order |
| Clipper.ClipOne | internal/diff/clip.go:118-210 | one hunk's kept records, or the hunk verbatim when its header does not parse |
| Clipper.ClipDiffHunks | internal/diff/clip.go:22-42 | the whole method writes the bytes the theorems above are about |
| Spans.CompactInPlace | internal/core/coverage.go:182-194 | compacting over the array still being read leaves the fold of its original contents |
| Spans.MergeLineSpans | internal/core/coverage.go:172-195 | the result is the fold of the valid inputs in some order sorted by start |
| Spans.MergesCanonicalExactlyWhen | internal/core/coverage.go:172-195 | whatever order the sort leaves among equal starts the result is canonical, if and only if each valid input that ends at the largest int starts above every other valid input |
| Spans.MergeCanOverlap | internal/core/coverage.go:182-194 | a concrete pair of spans the merge leaves overlapping |
| Spans.MergesShows | internal/core/coverage.go:172-195 | the merged spans show exactly the lines of the valid inputs, wrap-around or not |
| Spans.MergesShowLines | internal/core/coverage.go:172-195 | they are the lines n >= 1 between the ends of some input |
| Spans.MergesCanonical | internal/core/coverage.go:172-195 | under that condition on the inputs the result is valid, sorted and pairwise non-touching |
| Spans.CanonicalUnique | internal/core/coverage.go:165-195 | canonical spans showing the same lines are the same spans |
| Spans.MergeDependsOnLines | internal/core/coverage.go:165-195 | under that condition the result depends only on the set of lines shown, not on the order or grouping of the inputs |
| Spans.MergeIdempotent | internal/core/coverage.go:165-195 | merging any canonical list leaves it as it is |
| Spans.CoversSpanLoop | internal/core/coverage.go:197-207 | the loop answers whether one span holds the whole range |
| Spans.CoversSpanIsEveryLine | internal/core/coverage.go:197-207 | a range is covered if and only if it is valid and every line of it is |
| Spans.Union | internal/core/coverage.go:161-166 | both sides of the union are merges of the two operands |
| Spans.UnionCoversEveryLine | internal/core/coverage.go:148-166 | after a union a range is covered if and only if each of its lines is in one of the operands |
| SpanOrders.MergeDeterminedExactlyWhen | internal/core/coverage.go:172-195 | a merge has one answer, whatever order the sort leaves among equal starts, if and only if no two different valid inputs start alike with one of them ending at the largest int |
| SpanOrders.UnionCommutesExactlyWhen | internal/core/coverage.go:161-166 | a union is the same either way round if and only if that holds of the two operands together |
| SpanOrders.UnionNeedNotCommute | internal/core/coverage.go:161-166 | two concrete canonical operands whose union differs with their order |
| SpanOrders.OverlapCanCommute | internal/core/coverage.go:161-166 | a concrete pair that commutes though one span reaches over the other to the largest int |
| SpanGroups.MergeBeginsCanonical | internal/core/coverage.go:172-195 | wrapped or not, a merge begins with the canonical list of every line shown, and whatever follows lies inside the last span of it |
| SpanGroups.GroupingsBeginAlike | internal/core/coverage.go:161-195 | so both groupings of any three operands begin with the same list |
| SpanGroups.UnionAssociatesExactlyWhen | internal/core/coverage.go:161-195 | however three operands give a set of lines their two groupings agree, if and only if the set does not hold both of the two largest lines |
| SpanGroups.UnionNeedNotAssociate | internal/core/coverage.go:161-195 | three concrete canonical operands whose union differs with their grouping |
| Spans.UnionIdempotent | internal/core/coverage.go:161-166 | uniting canonical ranges with themselves changes nothing if and only if no span of them ends at the largest int |
| Views.Numbered | internal/diff/numbered.go:26-50 | the loop writes every line under a gutter of one width |
| Views.NumberedLineReads | internal/diff/numbered.go:26-58 | a body line whose numbers fit has a gutter of exactly 2w+3 bytes, off which both numbers, a missing side and the raw text are recovered by position |
| Views.BareExactlyWhen | internal/diff/numbered.go:26-50 | a record is written bare if and only if it is a header, and its text always ends the line |
| Views.GutterWidthExactlyWhen | internal/diff/numbered.go:26-58 | the gutter is 2w+3 bytes if and only if the line's numbers fit it |
| Views.NumberedDiffReads | internal/diff/numbered.go:26-58 | in a parsed diff every body line with non-negative numbers can be read back so |
| Views.Anchor | internal/diff/anchor.go:38-87 | the nearest shown line, the lower on a tie; nothing if and only if all are beyond the bound; at bound 0 the line itself |
| Views.ChangedLine | internal/diff/anchor.go:93-114 | yes if and only if the diff shows that line of the file as added or removed on that side |
| Views.LineRanges | internal/diff/ranges.go:18-32 | the ranges are a merge of one span for each number a body line carries on the side |
| Views.RangesHoldShownLines | internal/diff/ranges.go:18-32 | the ranges cover n >= 1 if and only if some body line shows it |
| Views.RangesAgreeWithAnchors | internal/diff/ranges.go:18-32 | for a diff of one file the ranges cover n if and only if an anchor at bound 0 finds it |
| Objects.Object.Set | internal/config/types.go:107-117 | the whole heap after a write: a new key goes last, a repeated one keeps its position, nothing else changes |
| Objects.Object.SetLast | internal/config/types.go:124-138 | the whole heap after a write: the key goes last even when repeated |
| Objects.RemoveFirst | internal/config/types.go:124-132 | the scan drops the key's one position and keeps the rest in order |
| Objects.WritesKeepKeys | internal/config/types.go:107-138 | either write keeps an object's keys duplicate-free and equal to its map's domain, whatever refers to the object |
| Objects.SetKeeps | internal/config/types.go:107-117 | a write into an object nothing refers to keeps every object of the heap in agreement with its own map and tree |
| Objects.SetLastKeeps | internal/config/types.go:124-138 | so does a write that moves the key last |
| Trees.PutFinds | internal/config/types.go:107-117 | after a write the key holds the value and every other key what it held |
| Trees.PutKeys | internal/config/types.go:107-117 | the key order after a write, without duplicates |
| Trees.PutLastFinds | internal/config/types.go:124-138 | after a moving write the key holds the value and every other key what it held |
| Trees.PutLastKeys | internal/config/types.go:124-138 | the key order after a moving write, without duplicates |
| Merger.Clone | internal/config/types.go:141-150 | a deep copy: every object in it is fresh and it holds the same tree |
| Merger.CloneValue | internal/config/types.go:152-165 | the same for one value |
| Merger.DeepMerge | internal/config/merge.go:21-40 | the result is fresh throughout, so it shares no node with either input, neither input is modified, and it holds jq's `*` of the two |
| Merger.MergeOne | internal/config/merge.go:28-38 | one key of the right: two mappings merge, anything else is a copy of the right's value |
| Trees.MergeKeys | internal/config/merge.go:21-40 | the left's key order is kept and the right's new keys follow it |
| Trees.MergeFinds | internal/config/merge.go:21-40 | the value at a key of the merge, in terms of the operands |
| Trees.MergeEmptyRight | internal/config/merge.go:21-40 | the empty object is an identity on the right |
| Trees.MergeEmptyLeft | internal/config/merge.go:21-40 | and on the left |
| Trees.MergeSelf | internal/config/merge.go:21-40 | merge(a, a) = a |
| Trees.MergeTwice | internal/config/merge.go:21-40 | merge(merge(a, b), b) = merge(a, b) |
| Merger.EndpointsOf | internal/config/load.go:217-228 | an absent, null or false key gives no endpoints, a mapping gives itself, anything else is refused |
| Merger.Load | internal/config/load.go:132-152 | the layers compose into a fresh configuration, refused exactly when either layer's endpoints are |
| Merger.OperatorMovesOnlyEndpoints | internal/config/load.go:128-152 | two operator layers that both load give configurations equal in key order and in every key but `endpoints` |
| Merger.LayersAnswer | internal/config/load.go:128-141 | for a name under `endpoints` the operator's value stands, for any other key the repository's over the defaults'; only two mappings merge |
| Merger.ComposesExactlyWhen | internal/config/load.go:128-152 | the layers compose if and only if neither the layer below nor the operator's holds `true`, a number, a text or a list under `endpoints` |
| Decoder.DecodeState.Enter | internal/config/merge.go:401-407 | one step of the budget is taken, or refused at the bound with nothing changed |
| Decoder.DecodeState.Open | internal/config/merge.go:414-423 | a second arrival at a container is what is reported |
| Decoder.ReadKeyName | internal/config/merge.go:566-577 | the loop reads a key through at most the bounded number of aliases |
| Decoder.WritesMergeKey | internal/config/merge.go:523-530 | whether the mapping writes a `<<` of its own |
| Decoder.MergeSources | internal/config/merge.go:533-557 | the alias targets of a `<<`, a list's from last to first, refused unless all are mappings |
| Decoder.ReadNode | internal/config/merge.go:297-345 | on every return depth and active set are what they were; the answer, value or error, is the specified walk's, in fresh objects; it terminates on every graph |
| Decoder.ReadItems | internal/config/merge.go:329-342 | the same for a list |
| Decoder.WriteMapping | internal/config/merge.go:484-519 | the same for a mapping written in place into an object, whose earlier contents are kept under it |
| Decoder.WritePair | internal/config/merge.go:494-517 | the same for one pair, merged or plain, under the mapping's own write rule |
| Decoder.WriteSources | internal/config/merge.go:500-510 | the same for the sources of one merge key, each closed again before the next |
| Decoder.ReadDocuments | internal/config/merge.go:223-241 | every document of a stream is decoded on a budget of its own, the first error winning |
| Decoder.ReadDocument | internal/config/merge.go:193-219 | one mapping is the configuration, no document or null is an empty one, any other shape or number is refused |
| DecodedParts.StreamLoads | internal/config/merge.go:193-241 | an empty stream and a null document are an empty configuration, a single mapping is itself, more documents or another shape are refused, and the first document that does not decode gives its error |
| DecodedParts.AliasIsItsAnchor | internal/config/merge.go:297-345 | an alias decodes to what its anchor decodes to |
| DecodedParts.ListIsItsItems | internal/config/merge.go:329-342 | a list decodes to its items, one for one and in order |
| DecodedParts.MappingHoldsItsPairs | internal/config/merge.go:484-519 | a mapping holds at the key of a pair, unless the key or a `<<` comes again after it, what the pair's value decodes to |
| DecodedParts.DocumentIsItsContent | internal/config/merge.go:297-345 | a document decodes to what it holds, an empty one to null |
| Decode.NodeUnfolds | internal/config/merge.go:297-345 | whatever decodes is the finite tree unfolding of the aliases, independent of the active set |
| Decode.MappingUnfolds | internal/config/merge.go:484-519 | a mapping decodes to its list of writes applied in order |
| Anchors.DecodesExactlyWhenFinite | internal/config/merge.go:297-345 | a document decodes if and only if it unfolds to a finite tree within the step budget, and the value is that tree |
| Anchors.CyclesAreRefused | internal/config/merge.go:366-430 | errAliasCycle is raised only when a container below the root is reachable from itself along followed edges, and a document with such a cycle never decodes |
| CycleErrors.CycleErrorExactlyWhen | internal/config/merge.go:297-430 | where scalars and merges can be read, aliases name anchored nodes and the containers are few against the budget, errAliasCycle is the answer if and only if there is such a cycle, and any other document decodes |
| Anchors.NodeJustified | internal/config/merge.go:297-345 | the same at every node of the walk, for any set of open containers that lead to it |
| Anchors.NoFitBelowCycle | internal/config/merge.go:366-383 | below a cycle no budget suffices |
| Anchors.FitsMore | internal/config/merge.go:347-364 | a larger budget decodes whatever a smaller one does |
| Anchors.UnfoldSame | internal/config/merge.go:297-345 | and to the same tree |
| Positional.MergeKeysArePositional | internal/config/merge.go:433-519 | the value at a key is the one read from the last pair back, a merge standing where its `<<` sits, and no key is repeated |
| Positional.LastWriteAnswers | internal/config/merge.go:484-519 | each key holds the last write made to it, whichever of the two write rules placed it |
| Positional.LaterSourcesFirst | internal/config/merge.go:533-557 | of `<<: [*a, *b, ...]` the earliest entry holding a key answers for it |
| Positional.SourcesRunBackwards | internal/config/merge.go:533-557 | a list's alias targets are applied from the last to the first |
| MergeValues.AliasWrites | internal/config/merge.go:533-557 | a `<<` with a plain alias to a mapping writes exactly what that mapping writes |
| MergeValues.OnlyAliasIsTheMapping | internal/config/merge.go:484-557 | a mapping that holds nothing but such a `<<` decodes to what the mapping it names decodes to |
| MergeValues.MergeRefusedWhen | internal/config/merge.go:533-557 | a `<<` holding an alias, itself or in its list, to anything but a mapping is refused, and one holding neither an alias nor a list is passed over |
| MergeValues.SourcesSome | internal/config/merge.go:533-557 | the sources of a `<<` can be named if and only if every alias it holds names a mapping |
| Positional.KeysStandWherePlaced | internal/config/types.go:107-138 | after any list of writes the keys stand, once each, in the order of the writes that placed them: the last one to move the key, or the first one to make it when none moves it |
| Positional.RepeatedKeyOrder | internal/config/merge.go:469-519 | the keys of every decoded mapping, merged in or its own, stand in that order over the writes of its expansion |
| Positional.OwnKeyOrder | internal/config/merge.go:469-519 | where nothing is merged in, a repeated key keeps its first position in a mapping without `<<` and its last in one that holds a `<<` |
| Positional.UnfoldsClean | internal/config/merge.go:433-519 | no decoded value repeats a key or holds a `<<` key at any depth |
| Positional.KeyIsTextOfItsAnchor | internal/config/merge.go:559-577 | a key is the text at the end of its aliases, empty past the bound or at nil |
| Decimal.ScientificTwice | internal/config/merge.go:678-768 | rewriting a literal twice is rewriting it once, for every string |
| Decimal.ScientificStringExactlyWhen | internal/config/merge.go:678-768 | the text is the to-scientific-string form of the number, on unbounded exponents, if and only if the adjusted exponent is an int above the least one |
| Decimal.ValueKeptExactlyWhen | internal/config/merge.go:678-768 | sign, coefficient and exponent survive if and only if the adjusted exponent is an int above the least one |
| Decimal.PlainExactlyWhen | internal/config/merge.go:678-768 | plain notation if and only if the exponent is not positive and the adjusted exponent is at least -6 |
| Decimal.ExponentCanWrap | internal/config/merge.go:678-768 | a concrete literal whose exponent wraps into text nothing reads |
| Decimal.WrittenReads | internal/config/merge.go:678-768 | what is written for any coefficient and exponent is taken apart into that coefficient and exponent |
| Literals.LiteralReads | internal/config/merge.go:678-768 | a literal is its sign, its digits without leading zeros, the exponent after an `e` or an `E`, and the digits after its point, whichever of them are written |
| Literals.TrimmedKeepsValue | internal/config/merge.go:678-768 | dropping leading zeros keeps the number and leaves none but a lone zero |
| Literals.NotALiteral | internal/config/merge.go:678-768 | text with any other character is not taken apart, and so is returned unchanged |
| Paths.LexicalResolve | internal/config/backlog.go:335-359 | the push-and-pop loop computes the normal form, stopping at the first climb above the root |
| Paths.LexicalIsClean | internal/config/backlog.go:332-359 | a non-empty result carries no empty, `.` or `..` component |
| Verdicts.WalkFailsExactlyWhen | internal/config/backlog.go:332-359 | a walk climbs above the root if and only if some stretch of it from the start goes up more often than down, and otherwise ends as deep as it went down |
| Verdicts.LexicalGoes | internal/config/backlog.go:332-359 | below a clean path a name goes one down, `.` stays, `..` goes one up, and nothing is left of what reaches the root |
| Paths.LexicalTwice | internal/config/backlog.go:332-359 | normalising is idempotent |
| Paths.InsideIsComponents | internal/config/backlog.go:318-330 | on normal forms of at least one component the text test holds if and only if the root's components are a prefix |
| Paths.ContainmentIsAboutComponents | internal/config/backlog.go:318-359 | inside(root, lexicalResolve(root/path)) holds if and only if the joined path does not escape and the root's components begin its normalised ones |
| Paths.StagingPathIsNormal | internal/cred/descriptor.go:78-90 | a staging path that passes the check stays below the scratch home once normalised |
| Landing.DirIsShorter | internal/config/backlog.go:382-406 | each step up shortens the path until it is the root, on every absolute path |
| Landing.PhysicalResolve | internal/config/backlog.go:382-406 | the climbing loop terminates on (hops, length) for every file system and answers what the climb defines |
| Landing.FollowDanglingLink | internal/config/backlog.go:411-427 | a dangling link is followed with one hop fewer, and not at all at none |
| Landing.LinkLoopsAreRefused | internal/config/backlog.go:361-427 | links that lead only to each other resolve to nothing, however many hops are allowed |
| Landing.LandsBelowDeepestAncestor | internal/config/backlog.go:367-406 | a normal path lands at its deepest resolvable ancestor followed by exactly the components that do not exist |
| Landing.DanglingLinkLands | internal/config/backlog.go:408-427 | a dangling link with a relative target lands under the directory its own directory resolves to |
| Verdicts.AbsoluteLinkLands | internal/config/backlog.go:408-427 | a dangling link with an absolute target lands where its target does with one hop fewer, and with no hop left or an unreadable target nowhere |
| Verdicts.NothingResolves | internal/config/backlog.go:382-406 | where nothing on the way up resolves or is a link, the path stands as it is |
| Landing.AssertPathInsideRepo | internal/config/backlog.go:255-302 | every verdict of the check, in the order the code decides them |
| Verdicts.VerdictIs | internal/config/backlog.go:255-302 | each verdict but one if and only if its own condition on components holds: no root, a relative root, an absolute path, a walk that climbs above the root or ends on it unnamed, an end that resolves to nothing, and allowed; what is left is outside |
| Landing.AllowedStaysInside | internal/config/backlog.go:227-302 | an allowed path, the empty one and `.` included, is relative, the components it walks to from the root begin with the root's, and it lands inside where the root lands |
| Passes.CurrentReviewPass | internal/prstate/pass.go:456-497 | the greatest pass of a review marker that was not declined, 0 when there is none |
| Passes.MarkerFor | internal/prstate/pass.go:510-529 | the last marker of the leg and pass, whatever its state |
| Passes.ReportKeepsCoverageExactlyWhen | internal/cycle/bound.go:143-177 | whatever its findings come to, a review is reported converged only with its coverage promise kept, if and only if its newest marker keeps it or carries a verdict that is missing, `blocked` or `converged` |
| Passes.ReportedWithoutCoverage | internal/cycle/bound.go:143-177 | a concrete marker that stopped short of its coverage and is reported converged |
| Cycle.Run | internal/cycle/cycle.go:187-330 | against every world the trace is a legal run of the protocol and the exit code is the one its last event calls for |
| Cycle.Cycle | internal/cycle/cycle.go:252-330 | the bounded loop, from an opening below its cap |
| Cycle.FinishAtBound | internal/cycle/bound.go:26-113 | the finish of a cycle that opens at its cap |
| Cycle.LegAndLoad | internal/cycle/cycle.go:271-310 | a leg and the load after it change exactly the counts, the last leg and the pass read |
| CycleRuns.EachStepAllowed | internal/cycle/cycle.go:187-330 | every event of a run was allowed by the events before it |
| CycleRuns.ReloadBetweenLegs | internal/cycle/cycle.go:252-330 | between any two legs the state is loaded again, right before the second |
| CycleRuns.LegsAlternate | internal/cycle/cycle.go:252-330 | below the cap the legs alternate, a review leg first |
| CycleRuns.LegsWithinTheCap | internal/cycle/cycle.go:222-330 | at most `max` of each leg, `max` fixed at the first load, and at most one of each when the run opens at the cap |
| CycleRuns.ReviewsBelowTheCap | internal/cycle/cycle.go:252-277 | a review leg runs only when the latest load showed a pass below the cap, told it continues exactly when another ran before |
| CycleRuns.ResolvesOnlyWhenReviewContinues | internal/cycle/bound.go:75-97 | a resolve leg runs only when the review just loaded says to continue; at the cap, only over a completed review whose resolve is owed |
| Decisions.AfterReview | internal/cycle/cycle.go:279-310 | in every stopped run below the cap, the load after a review is followed by a resolve leg if and only if the newest review marker left findings to act on or broke its coverage promise, and otherwise by the one ending the markers call for |
| Decisions.AfterResolve | internal/cycle/cycle.go:310-330 | the load after a resolve is followed by the ending its markers call for, blocked before stopped before settled before left for a person, and otherwise by another load, the cap's line, or at the cap the line that its pass is resolved |
| Decisions.AfterOtherLoad | internal/cycle/cycle.go:252-277 | every other load below the cap is followed by a review if and only if the pass it shows is below the cap |
| Decisions.AtTheCap | internal/cycle/bound.go:26-113 | a run that opens at its cap reviews if and only if that review is unfinished, resolves if and only if the finished review left work no completed resolve answers, and otherwise ends as its markers say |
| Decisions.TipFollowsExactlyWhen | internal/cycle/cycle.go:280-330 | a tip follows the closing line if and only if tips were asked for, the run opened below its cap, and it ends at the cap, converged or on an escalation |
| Decisions.ExitCodeIs | internal/cycle/cycle.go:187-330 | a run answers 0 if and only if it reported an ending or declined a draft, and otherwise 1 |
| Decisions.LoadsAsk | internal/cycle/bound.go:115-119 | every later load asks for the pull request the run named, and at the cap for the one the load before it answered |
| Decisions.LegsAskTheRun | internal/cycle/cycle.go:332-352 | every leg is asked with the run's own overrides and no tips, a resolve never as a continuation |
| CycleRuns.BoundResumesOnly | internal/cycle/bound.go:29-55 | at the cap a review leg only resumes an unfinished pass, exempt from the bound exactly when its claim is open |
| CycleRuns.PassNeverExceeds | internal/cycle/cycle.go:252-330 | if a review raises the pass by at most one and nothing else raises it, the pass of a run that opened below the cap never exceeds it |
| CycleRuns.TriggerNamedOnce | internal/cycle/cycle.go:83-94 | only the first load names the trigger |
| CycleRuns.ConvergedStandsOnTheState | internal/cycle/bound.go:143-243 | a run that ends converged stands on the state it loaded last: after a resolve leg, for the pass read before it, on a completed unblocked review and a complete unblocked resolve without the stop label; otherwise on a settled review of the current pass |
| CycleRuns.NothingAfterTheEnd | internal/cycle/cycle.go:280-330 | after the closing line there is at most one tip, never after a halt and never at the cap |
| Watchdog.RetryLeg | internal/cycle/watchdog.go:194-229 | the ordered writes of a retry or a halt, each one able to be refused |
| Watchdog.Check | internal/cycle/watchdog.go:123-180 | one pull request of the sweep: what is written, what is counted, whether the sweep stops |
| Watchdog.Run | internal/cycle/watchdog.go:102-190 | the sweep loop over every refusal pattern, with the counters as they stood when it stopped |
| Watchdog.SweepLeavesAlone | internal/cycle/watchdog.go:123-180 | no sweep writes to a pull request that is stopped, a draft, inside its timeout or not on the list, whatever is refused |
| Watchdog.TimelyIsLeftAlone | internal/cycle/watchdog.go:140-175 | one whose newest marker is younger than the timeout, half an hour when none is set, is not written to |
| Watchdog.IdleIsRetried | internal/cycle/watchdog.go:140-180 | and one with no marker, or none since the timeout, is, unless it is stopped or a draft |
| Watchdog.SweepCounts | internal/cycle/watchdog.go:123-190 | the counters of a sweep that was not stopped: every entry checked, every draft skipped, every stuck leg re-fired or, when it carries the mark already, given up on |
| Labels.JoinContains | internal/cycle/watchdog.go:130-140 | searching the space-joined labels finds a spaceless name if and only if one label contains it |
| Labels.LegWaitedForIs | internal/cycle/watchdog.go:130-140 | the leg read off the labels, and when it is the leg waited for |
| Restart.Run | internal/cycle/restart.go:50-124 | the restart's refusals and ordered writes, each write able to be refused |
| Restart.RefusedRestartStaysHalted | internal/cycle/restart.go:94-110 | a restart whose add is refused leaves the halt on, so the next restart gets past every refusal to its own writes |
| SweepRuns.SweptAll | internal/cycle/watchdog.go:102-229 | a whole sweep over any list of distinct pull requests, on a forge that refuses nothing: each takes one step of the label protocol, and one not on the list none |
| SweepRuns.RunIsInterleaving | internal/cycle/restart.go:50-124 | every run of sweeps and restarts over a store is, for each pull request, an interleaving of the protocol, its counts read off the log of writes |
| SweepRuns.RunsKeepOrderExactlyWhen | internal/cycle/restart.go:75-124 | over every such run whose restarts of a waiting pull request put a wait back: its labels stay in order and the log halts it no more often than it marks it retried, and that at most once more than the halt comes off, if and only if it is stopped or carries no foreign label |
| Interleaving.SweepStepIs | internal/cycle/watchdog.go:123-180 | one entry of a sweep is the protocol's step, the sweep's own counters included |
| Interleaving.RestartStepIs | internal/cycle/restart.go:50-124 | and its other step is what a restart does, whatever text the leg carries |
| Interleaving.EveryInterleavingIsSound | internal/cycle/restart.go:75-124 | from labels none of which is foreign, over any interleaving of sweeps and restarts: one awaiting label and no halt, or a halt and no awaiting label, and halts <= retries <= restarts + 1, hold at every point if and only if every restart that takes effect puts a wait back |
| Interleaving.KeptExactlyWhen | internal/cycle/restart.go:75-124 | from any labels that wait, every interleaving whose restarts put a wait back keeps all that if and only if the stop label is on or no label is foreign, a foreign one being any other that starts with the awaiting prefix or contains the resolution wait's name |
| Interleaving.KeptUnnamedExactlyWhen | internal/cycle/restart.go:179-212 | with restarts of any leg text, if and only if the stop label is on |
| Interleaving.HaltedIsLeftAlone | internal/forge/ghexec/awaiting.go:18-29 | no sweep changes a halted pull request if and only if it is stopped or none of its labels starts with the awaiting prefix |
| Interleaving.ForeignLabelMisleads | internal/cycle/watchdog.go:130-140 | a concrete foreign label that leaves two awaiting labels |
| Interleaving.PrefixLabelMiscounts | internal/forge/ghexec/awaiting.go:18-29 | a concrete label with the awaiting prefix under which three stuck sweeps count two halts and one retry |
| Interleaving.LeglessRestartStrands | internal/cycle/restart.go:94-124 | a concrete restart that names no leg, answers that it restarted and leaves neither a wait nor a halt |
| Restart.RetryFiresOnce | internal/cycle/watchdog.go:194-229 | a retry fires its awaiting label's event exactly once, a halt never does |
| Restart.RestartFires | internal/cycle/restart.go:94-110 | a restart adds its awaiting label where it is not on, so the event fires |
| Interleaving.RestartUndoesHalt | internal/cycle/restart.go:94-124 | restarting the leg a sweep gave up on puts back the labels the sweep found, without its own mark |
| Restart.RestartsResolveExactlyWhen | internal/cycle/restart.go:179-212 | a restart names the resolve leg if and only if no review one pass ahead was declined, nothing is escalated, and this pass's resolve ended halted, or its review left findings no resolve answers, or an open claim nothing settles spells it |
| Restart.RestartsReviewExactlyWhen | internal/cycle/restart.go:179-212 | and the review leg if and only if such a review was declined, something is escalated, the review of this pass is blocked and its resolve did not end halted, or nothing settles it and no open claim spells anything else |
| Restart.OpenClaimNamesTheLeg | internal/cycle/restart.go:179-212 | when nothing on the markers settles the leg and the newest is an open claim, its own text is the leg restarted; otherwise one of the two legs is |
| Restart.LeglessExactlyWhen | internal/cycle/restart.go:179-212 | a restart puts no wait back if and only if nothing settles the leg and the newest marker is an open claim whose text spells none |
| Labels.PutsWaitExactlyWhen | internal/policy/labels.go:76-91 | the texts whose label is one of the two waits: `review`, `resolve` and, by accident, `resolution` |
| Staging.Prepare | internal/cred/staging.go:185-276 | any refusal leaves the environment as it was and the file system too unless a removal was itself refused; success puts the secret in a file under a new directory the variable points at; and on a machine that refuses nothing which refusal comes, if any, is decided by the path and the secret alone |
| Staging.StageFile | internal/cred/staging.go:198-252 | a failed staging leaves nothing outside the scratch directory changed |
| Staging.WriteCredential | internal/cred/staging.go:236-246 | the file and its directory are written under the scratch directory |
| Staging.DescendsInside | internal/cred/staging.go:211-233 | a path descended from a directory lies under it |
| Staging.Discard | internal/cred/staging.go:359-391 | success removes the whole directory and puts the variable back; a failure leaves the handle as it was, so it can be called again |
| Staging.DiscardUntilDone | internal/cred/staging.go:359-391 | discarding again and again, whatever is refused in between: when one answers ok, environment, directories and files are what they were before the prepare |
| Staging.PrepareAndDiscard | internal/cred/staging.go:185-391 | one prepare and the discards it takes leave environment, directories and files as they were, unless a refused prepare could not remove its own scratch directory |
| Staging.PrepareNested | internal/cred/staging.go:185-391 | so does any number of prepares, each discarded once everything prepared after it has been |
| Staging.RestoringUndoesExporting | internal/cred/staging.go:336-391 | the environment half of one undo: restoring what was saved undoes the export, unset variables included |
| Staging.NestedPreparesUnwind | internal/cred/staging.go:185-391 | the environment half of nesting: exports undone in reverse order restore the original environment |
| Staging.InOrderUndoExactlyWhen | internal/cred/staging.go:185-391 | two prepares undone in the order they were made restore it if and only if they name different variables or the first directory was already the value |
| Staging.Staged.Apply | internal/cred/staging.go:312-331 | the filter loop computes the pointed environment, or the entries unchanged when nothing was staged |
| Staging.AppliesOnce | internal/cred/staging.go:289-331 | exactly one entry is left for the name, every other is kept in order, and applying twice is applying once |
| Count.PRsReviewedToday | internal/forge/count.go:88-137 | a run whose reads succeed returns the specified count; a refused page is reported |
| Count.ExpectedIs | internal/forge/count.go:88-137 | the count is the number of addresses, other than the current pull request's, on which the trusted author left a review marker that was not declined and is newer than the cutoff, held at the cap; 0 when the current one already carries such a marker |
| Count.CountIgnoresOrder | internal/forge/count.go:88-137 | the count does not depend on the order of the comments |
| Count.PageEnds | internal/forge/count.go:110-137 | a page adds exactly the comments after the pages before it, and a short one ends the list |
| Count.SuffixIsNumber | internal/forge/count.go:97-126 | the suffix test excludes a comment if and only if its number is the current pull request's |

## Left out

- Decoder.ReadNode: starts from a node graph and a scalar's value; YAML lexing, the leading-content rule, tags and the rendering of integers and floats before `scientificString` are not modelled, and a nil child is read as the null it decodes to.
- Merger.Load: begins where both layers are decoded; reading the files, the version check and the validators that follow the merge are not part of this model.
- Objects.Object.Set: list values are sequences, not shared mutable slices, so aliasing is modelled between objects and not between two holders of one list.
- Parser.Diff.Parse: the revision pair a diff carries and the `Files`, `HasChanges` and `Headers` readers are left out.
- Header.Number: counts of body lines and lengths are unbounded where the source would need more lines than memory holds; the line numbers themselves saturate as in the source.
- Spans.MergeLineSpans: sort.Slice is modelled by an insertion sort, and the theorems hold for any order among equal starts.
- Decimal.ScientificTwice: a literal and its rewriting are at most the largest int in length, as every Go string is; decNumber's own exponent clamp is recorded in the source as a divergence and is not modelled.
- Cycle.Run: the printed lines become the kind of ending they report; the draft notice, the progress lines and the wording are left out, and the two legs, the pairing check, the actionable and escalated counts and the resolve label are functions of the world.
- Watchdog.Run: a sweep acts on the labels it was handed; LabelEnsure, whose outcome the source discards, and every printed line are left out, and ages are exact where the source multiplies seconds into a 64-bit duration.
- SpanGroups.UnionAssociatesExactlyWhen: exact on the lines shown. Of single triples that show both of the two largest lines some regroup and some do not: both groupings begin alike, and whether they end alike depends on the spans each inner union leaves behind its first span to reach the largest int, which comes down to computing both.
- CycleErrors.CycleErrorExactlyWhen: past its conditions a cyclic document is still refused, with whichever error the walk meets first.
- Interleaving.EveryInterleavingIsSound: each sweep of one pull request and each restart is one step; two processes writing between each other's reads are not modelled.
- Staging.Prepare: file modes, the descriptor's parsing and the freshness rule (a predicate of the secret) are left out, and a directory made below the scratch home stands for its missing parents.
- Landing.PhysicalResolve: the file system is one fixed snapshot; permissions and races with it are not modelled.
- Count.PRsReviewedToday: a comment's marker arrives decoded, and a list whose pages never come back short is excluded, as the source leaves that to its context.
- Process running, the gh client, OAuth, harness adapters, command parsing, status rendering and message texts: plumbing with no deep invariant.
- `lookup`, `alternative` and the other single-value readers of the configuration, the enum parsers and the single-key validators: each says no more than its body.
