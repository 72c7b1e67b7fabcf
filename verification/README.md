# Verified models: chunking, embedding runs, limited reading

This project models the parts of the repository where a mistake would lose, repeat or mislabel content, and proves what
those parts promise:

- the **chunker** (`chunk/`): `Split` from the source text to the numbered chunks, with both bundled segmentations
  (`Paragraphs`, `Headings`), greedy packing with walk-back overlap, and the prose and fence-aware hard splits;
- the **embedding runner** (`embed/`): validation, batching under two caps, bisection of failing batches, matching of
  answers by ID, cancellation, and reassembly in input order;
- three **supporting cores**: `NormalizeWhitespace`, the byte-limiting readers, and the slide order of a presentation.

Each source loop is a method with invariants, proved equal to a function of its inputs (or of the old state of the object
it changes); the lemmas are about those functions. `Chunks.Sink` is the chunk list and index that the splitters share by
pointer, `Embedding.Session` the records map and failure list that the embedding calls share, `Readers.LimitReader` and
`Readers.PartDecoder` the readers with their running allowance. A source loop whose body branches a lot has that body in
a method of its own (`ChunkEnd`, `PackChunk`, `UnitTurn`, `ScanStep`, `Bisect` and so on).

## How the sources are read

- Text is a sequence of bytes. Decoding is exact UTF-8 (section 3 of RFC 3629) with an encoding error counting as one
  byte, and white space is the exact set that `unicode.IsSpace` accepts.
- Methods and functions accept any bytes. The theorems on coverage, order and rune alignment need a text with no stray
  continuation byte (`Utf8.NoStray`), which every valid UTF-8 text is (`Utf8.ValidNoStray`). The condition is exact:
  the prose cutter loses nothing at every target if and only if it holds (`ProseChain.LosesNothingIff`), and
  `ProseChain.StrayByteSkipped` is a text of three bytes of which one is skipped.
- The token estimator is an arbitrary function; only where a theorem needs it is it assumed not to go negative.
- The two float64 steps that turn a token budget into a byte window round as they please: `Float64.ROUND` is any function
  that keeps order, leaves whole numbers alone and is off by at most one part in 2^52, as every IEEE 754 rounding mode
  does. The structural theorems hold for every target of at least one byte and every overlap. Integers are unbounded.
- The embedding client and the run's context are arbitrary oracles: the reply to the n-th call may be any list of vectors
  or any error, and the n-th look at the context may find it done (`Embedding.World`).
- A failure carries one field the source does not have, `covers`, the positions of its inputs; only statements use it.
  It is tied to what Run returns: every failure's inputs are exactly those at the positions it covers
  (`RunOrder.RunReports`), and what is proved of positions is read off the returned result in `RunResults`.
- A source reader offers any number of bytes on each read, and decoders read with any buffer sizes.
- `strings` functions, `strconv.Itoa` and `Atoi`, and the sorts appear by what they compute: `sort.SliceStable` as a
  stable insertion sort, `sort.Slice` as any ordering by number with ties in no particular order.
  "Empty after trimming" appears as `Space.IsBlank`, which says the same (`Space.BlankIffTrimmedAway`).

## Where the code and its comments differ

The model follows the code.

- `embed/embed.go:311-345` stores records while it is still checking the response. A response with the right number of
  distinct IDs, one of them unknown, leaves the records before the first unanswered input in place and also fails the
  whole batch. So "one record or one failure per input" fails for such a response (`RunResults.TornRunExample`) and
  holds exactly when no response is torn (`RunResults.RunExactlyOnceIff`).
- `chunk/chunk.go:47-49` asks units to cover the text; `validUnits` accepts gaps. Statements on coverage and on summed
  counts therefore ask for a gap-free segmentation, which both bundled ones are.
- `chunk/headings.go:78-80` guards against a duplicate start; the guard never fires (`Headings.RecordedStep`).
- `extract/pptx/pptx.go:212-213` promises exactly the filename order without a presentation order; two slide parts of one
  name are merged (`Slides.SlideTwiceExample`), so this holds exactly when names are distinct (`Slides.NilOrder`).

## Model

| member | source | states |
|---|---|---|
| Utf8.ValidIffDecodes | chunk/chunk.go:331-335 | a text is valid UTF-8 in the local sense (every rune start begins a whole rune) exactly when decoding it left to right meets no error |
| Utf8.RuneAtIff | chunk/chunk.go:403-432 | what the decoder takes for a rune is exactly a lead byte with its continuation bytes that carries, in the shortest form, a Unicode scalar value |
| Utf8.RuneLenIs | chunk/chunk.go:403-432 | a decoding step is as wide as the rune that stands there, and one byte where none does |
| Utf8.NoStrayIffWalks | chunk/chunk.go:418-432 | a text has no stray continuation byte exactly when left-to-right decoding steps from rune boundary to rune boundary |
| Utf8.CountAdds | chunk/chunk.go:133-138 | rune counts of neighbouring slices add up at a rune boundary |
| Space.SpaceWidthIff | chunk/chunk.go:466-474 | white space is exactly the runes whose code point is in the Unicode table |
| Space.SkipSpaceStops | chunk/chunk.go:145-155 | what is trimmed in front is white space, and no white space follows it |
| Space.DropSpaceStops | chunk/chunk.go:145-155 | what is trimmed behind is white space, and no white space stands before it |
| Space.TrimAligned | chunk/chunk.go:145-155 | trimming white space cuts at rune boundaries and leaves no stray byte |
| Packing.GrowChunk | chunk/chunk.go:218-225 | the packing loop's last unit and the exact sum of its units' counts |
| Packing.GrowIsLongest | chunk/chunk.go:214-225 | a unit is in the chunk exactly when it fits the budget together with all units from the first on |
| Packing.OverlapStart | chunk/chunk.go:232-242 | the walk back over trailing units, strictly past the chunk's first unit |
| Packing.OverlapIsLongest | chunk/chunk.go:227-242 | a trailing unit is repeated exactly when it and all after it fit the overlap budget together |
| Packing.PlanShape | chunk/chunk.go:178-202 | every run of the packing loop: steps start strictly later, never end earlier, skip no unit, stay in budget; a hard-split unit is never overlapped; only the last step holds the last unit |
| Packing.PlanIsGreedy | chunk/chunk.go:178-242 | every step takes exactly the units that fit, the next step takes back exactly the trailing units that fit the overlap budget, and the run stops once the last unit is out |
| Packing.GreedyRunIsUnique | chunk/chunk.go:178-242 | only one run is like that |
| Packing.PlanCovers | chunk/chunk.go:178-202 | every unit is part of some step of the run |
| Packing.OversizeSplitOnce | chunk/chunk.go:179-184 | an oversize unit is hard-split by exactly one step and is part of no other |
| Packing.GreedyIsOptimal | chunk/chunk.go:178-224 | without overlap and oversize units the run is a partition into in-budget groups, and no such partition has fewer |
| Cuts.PackCutsChain | chunk/chunk.go:178-202 | whatever the mix of packed and hard-split units, the spans emitted form one chain: starts increase, ends never move back, first to last unit, and only the last span reaches the end |
| Cuts.CutOrigin | chunk/chunk.go:178-202 | every span emitted is either whole units counted by their sum within budget, or a piece of one oversize unit |
| Cuts.ChainCovers | chunk/chunk.go:178-202 | a chain whose spans start at or before the previous end covers every byte |
| Chunks.Sink.Append | chunk/codesplit.go:133-142 | one chunk with the slice of the text, the running index and the count is appended, the index moves on by one |
| Chunks.MakeChunksConcat | chunk/codesplit.go:133-142 | numbering two groups of cuts in a row is numbering them together: indices stay sequential across nested splitters |
| Prose.LastSentenceEnd | chunk/chunk.go:454-463 | the last sentence mark with a space behind it, or -1 when there is none |
| Prose.LastWhitespace | chunk/chunk.go:466-474 | the last white-space rune, or -1 when there is none |
| Prose.FindBoundary | chunk/chunk.go:439-450 | the boundary chosen is the specified one |
| Prose.BoundaryIsBest | chunk/chunk.go:434-450 | that boundary is behind the last sentence mark of the last quarter, else before its last white space, else the ideal end |
| Prose.BestIsUnique | chunk/chunk.go:434-450 | this preference determines the boundary |
| Prose.SnapEndToRuneBoundary | chunk/chunk.go:403-416 | the end is moved to the rune boundary before it, or behind one whole rune |
| Prose.RuneFloorIsLast | chunk/chunk.go:403-416 | the backward snap finds the last rune boundary at or before the ideal end |
| Prose.SnapStartToRuneStart | chunk/chunk.go:421-432 | the start is moved to the next rune start, or to the end of the text |
| Float64.WindowBound | chunk/chunk.go:269-272 | under any rounding the byte window holds at most q bytes per token of budget when the span does |
| Float64.WindowAtLeast | chunk/chunk.go:269-272 | and at least q bytes per token when the span holds that many |
| Float64.WindowExact | chunk/chunk.go:269-272 | at a whole number q of bytes per token the window is exactly q bytes for each token of budget |
| Float64.WindowIsNear | chunk/chunk.go:269-272 | at any ratio the window is less than two bytes away from the exact product of budget and ratio |
| Prose.HardSplitProse | chunk/chunk.go:267-303 | the sink receives exactly the cuts of the window and the overlap that the two rounded and truncated float steps give |
| Prose.CutProse | chunk/chunk.go:274-303 | the loop terminates on any bytes for every target of at least one and every overlap, and emits exactly the specified cuts |
| ProseChain.WindowShift | chunk/chunk.go:439-450 | shifting the search window forward never brings the boundary back past a rune boundary |
| ProseChain.SnapKeepsOrder | chunk/chunk.go:403-416 | snapping to rune boundaries keeps the order of the ends |
| ProseChain.EndsNeverMoveBack | chunk/chunk.go:274-302 | a prose chunk that starts later does not end earlier |
| ProseChain.ProseNextLinks | chunk/chunk.go:297-301 | the next chunk starts later, and at or before the end of this one even when the overlap exceeds the target |
| ProseChain.ProseIsChain | chunk/chunk.go:267-303 | for every target of at least one and every overlap: starts increase, ends never move back, no byte is skipped, the last end is the span's end |
| ProseShape.ProseCutsRun | chunk/chunk.go:274-303 | each chunk ends at the preferred cut of the last quarter of its target, moved back to a rune boundary; the next one begins at the first rune boundary at or after that end less the overlap, but after its start; the first to reach the end is the last |
| ProseShape.ProseRunIsUnique | chunk/chunk.go:274-303 | only one list of cuts is like that |
| ProseShape.ProseCutSizes | chunk/chunk.go:274-303 | each chunk but the last takes at least the target less its last quarter and less one rune, none more than the target or one rune |
| ProseShape.ProseSplitRuns | chunk/chunk.go:267-303 | a whole prose split is such a run, its target and overlap being the token budgets at the ratio of bytes to tokens of the span, at least one and none |
| ProseChain.LosesNothingIff | chunk/chunk.go:274-302 | the prose cutter loses no byte at every target exactly when the text has no stray continuation byte |
| ProseChain.StrayByteSkipped | chunk/chunk.go:297-301 | a text with a stray continuation byte that the cutter skips |
| Paragraphs.NextBlankLine | chunk/chunk.go:366-398 | the first maximal run of two or more newlines (LF or CR LF): where it ends, and where it begins |
| Paragraphs.BreakAtIff | chunk/chunk.go:360-398 | a run ends where two newlines, LF or CR LF each, stand in a row and none follows |
| Paragraphs.Paragraphs | chunk/chunk.go:342-358 | the loop returns the specified units |
| Paragraphs.ParagraphsCanonical | chunk/chunk.go:337-358 | the units tile every text and end exactly at the ends of its blank-line runs and nowhere else |
| Paragraphs.ParagraphsUnique | chunk/chunk.go:337-358 | no other segmentation has that shape |
| Lines.LineAt | chunk/headings.go:109-120 | the content of the line and the start of the next one |
| Lines.LineNextIsFirst | chunk/headings.go:106-120 | a line holds no LF but the one that ends it |
| Lines.LineReads | chunk/headings.go:106-120 | a line is its content and a terminator, which is LF, CR LF or, only at the end of the text, nothing; no content ends in CR before a lone LF |
| Lines.FenceMarker | chunk/headings.go:127-150 | the marker found is the specified one |
| Lines.FenceMarkerIff | chunk/headings.go:122-150 | a line is a fence marker exactly when it reads as at most three spaces, three or more backticks or tildes, and a rest free of backticks after backticks |
| Lines.AtxLevel | chunk/headings.go:160-180 | the level found is the specified one |
| Lines.AtxLevelIff | chunk/headings.go:158-180 | a line is a heading of a level exactly when it reads as at most three spaces, that many (one to six) hashes, then a space, a tab or nothing |
| Lines.SetextUnderline | chunk/headings.go:186-204 | the test gives the specified answer |
| Lines.SetextUnderlineIff | chunk/headings.go:182-204 | a line is an underline exactly when it reads as at most three spaces, a run of one of the two marks, then spaces and tabs only |
| CodeSplit.FencedGroups | chunk/codesplit.go:106-129 | the loops return the specified regions |
| CodeSplit.ClosesIff | chunk/codesplit.go:116-126 | a line closes a block exactly when it reads as a marker of the same byte, as long or longer, with nothing behind it |
| CodeSplit.GroupsAreRegions | chunk/codesplit.go:102-129 | each region is one line that is no fence marker, or runs from a marker line through the first line that closes it, to the end when none does |
| CodeSplit.GroupsTile | chunk/codesplit.go:102-129 | the regions tile the span |
| CodeSplit.SpanHasFence | chunk/codesplit.go:13-22 | the early-out scan gives the specified answer |
| CodeSplit.HasFenceIff | chunk/codesplit.go:10-22 | the cheap test is true exactly when the grouping of the span holds a fenced block |
| CodeSplit.SplitLines | chunk/codesplit.go:70-100 | the sink receives exactly the cuts of packing the block's lines, over-long lines cut as prose |
| CodeSplit.SplitFenced | chunk/codesplit.go:31-64 | the sink receives exactly the cuts of packing the regions, oversize blocks cut at lines and oversize lone lines as prose |
| CodeSplit.HardSplit | chunk/chunk.go:256-262 | the sink receives the fence-aware cuts exactly when the span holds a fence, the prose cuts otherwise |
| HardSplit.HardSplitChoice | chunk/chunk.go:256-262 | a span is cut at its regions exactly when one of them is a fenced block, as prose otherwise |
| HardSplit.LineCutsRun | chunk/codesplit.go:70-100 | a fenced block's lines are packed in one greedy run under both budgets, each over-long line cut as prose |
| HardSplit.FencedCutsRun | chunk/codesplit.go:31-64 | so are a span's regions, an oversize block cut at its lines and an oversize lone line as prose |
| HardSplit.LineCutsChain | chunk/codesplit.go:66-100 | the cuts of a fenced block form a rune-aligned chain over it that skips nothing |
| HardSplit.FencedCutsChain | chunk/codesplit.go:24-64 | so do the cuts of a fence-aware split, through all nested packers |
| HardSplit.HardCutsChain | chunk/chunk.go:244-262 | so do the cuts of every hard split |
| HardSplit.FencesStayWhole | chunk/codesplit.go:24-64 | no chunk starts or ends inside a fenced block or line that fits the budget |
| HardSplit.FencedCutsAtLines | chunk/codesplit.go:24-100 | when no single line is over budget every cut is at a line start, with overlap on or off |
| FenceTheorems.SplitKeepsFencesWhole | chunk/chunk.go:244-262 | with Headings and at least one heading, no cut of a whole Split starts or ends inside a fenced block of the text that fits the budget |
| FenceTheorems.ChunksKeepFencesWhole | chunk/chunk.go:244-262 | the same of the chunks, in the source's coordinates |
| Headings.AppendStart | chunk/headings.go:78-86 | the start is taken in at the end, once: strictly ascending starts that it does not precede stay strictly ascending, and hold it and the old ones and nothing else |
| Headings.RecordedStep | chunk/headings.go:78-86 | what a line records lies strictly behind all that was recorded, even for an underline pointing to the prior line: the duplicate guard never fires |
| Headings.UnitsFromStarts | chunk/headings.go:91-104 | the loop gives a preamble unit if there is one, then a unit per start up to the next |
| Headings.Headings | chunk/headings.go:24-76 | the scanner returns the specified sections, or the paragraphs when there is no heading |
| HeadingSections.StartsAscend | chunk/headings.go:36-70 | recorded starts are strictly ascending, from any scanner state |
| HeadingSections.HeadingsTile | chunk/headings.go:24-104 | the sections tile the text |
| HeadingSections.HeadingStartsAreRegions | chunk/headings.go:36-70 | no section starts inside a fenced block |
| HeadingSections.GroupingCommutesWithHeadings | chunk/codesplit.go:102-129 | grouping each section on its own and joining the results is grouping the whole text: the two fence trackers agree |
| HeadingRegions.ScannerFindsSections | chunk/headings.go:24-76 | the line scanner records exactly the starts of the regions that are headings by their own and their neighbours' lines |
| HeadingRegions.HeadingsStartSections | chunk/headings.go:24-104 | one unit begins at each heading and one more at 0 for a preamble, no other; without a heading the units are the paragraphs |
| Split.ValidUnits | chunk/chunk.go:311-329 | accepted exactly when units are non-empty, in range, rune-aligned, ascending and not overlapping |
| SplitSpec.ValidUnitsIff | chunk/chunk.go:305-329 | the accepted lists are those of non-empty rune-aligned spans of the text, at least one, none before the end of the one before it |
| Split.PackUnits | chunk/chunk.go:170-202 | the sink receives exactly the cuts of packing the units, oversize ones hard-split; what that packing is, see SplitSpec.SplitRuns |
| Split.Split | chunk/chunk.go:145-212 | the chunks are those of the trimmed text's cuts, moved back into the source's coordinates |
| SplitSpec.SplitRuns | chunk/chunk.go:145-212 | whatever the configuration: the boundaries function's own units, or the whole text when they are not accepted, are packed in the one greedy run under the caller's budgets or 512 and 64, oversize units hard-split |
| SplitSpec.SplitKeepsSegments | chunk/chunk.go:145-212 | no chunk starts or ends inside an accepted unit of the boundaries function that fits the budget |
| SplitSpec.SplitCoversSegments | chunk/chunk.go:145-212 | every byte of every accepted unit of the boundaries function lies in a chunk |
| SplitSpec.SplitFallsBack | chunk/chunk.go:161-168 | units that are not accepted make the text one unit, and one within budget a single chunk |
| SplitSpec.SplitStopsAtEnd | chunk/chunk.go:178-202 | of a gap-free Split only the last chunk reaches the end of the trimmed source: no repeated tail |
| SplitSpec.SplitCountsParts | chunk/chunk.go:170-303 | for any estimator that is never negative: a chunk's count is the sum of the estimates of parts that make up the chunk |
| SplitTheorems.SplitContract | chunk/chunk.go:60-74 | for any boundaries function: indices are sequential, texts are the slices, spans are rune-aligned and not empty, starts increase, ends never move back; no chunks exactly when the source is blank |
| SplitTheorems.SplitChain | chunk/chunk.go:145-212 | for a gap-free segmentation the chunks run from the first trimmed byte to the last, each starting at or before the previous end, exactly there without overlap |
| SplitTheorems.SplitCoversUnits | chunk/chunk.go:145-212 | whichever units are in use, every byte of them lies in a chunk, whatever gaps they leave |
| SplitTheorems.SplitCovers | chunk/chunk.go:145-212 | for a gap-free segmentation every byte of the trimmed source lies in a chunk |
| SplitTheorems.SplitReconstructs | chunk/chunk.go:145-212 | without overlap the chunk texts joined are the trimmed source |
| SplitTheorems.ParagraphsValid | chunk/chunk.go:305-358 | the paragraphs tile the text and are accepted by validUnits |
| SplitTheorems.HeadingsValid | chunk/headings.go:24-104 | so are the heading sections |
| SplitTheorems.BundledSplitLosesNothing | chunk/chunk.go:140-212 | with either bundled segmentation every byte is covered, and without overlap the source is rebuilt |
| SplitTheorems.OversizeUnitsSplitOnce | chunk/chunk.go:179-184 | each unit over budget is hard-split exactly once in a Split |
| SplitTheorems.SplitIsOptimal | chunk/chunk.go:178-224 | without overlap and oversize units Split makes no more chunks than any partition into in-budget groups |
| Budget.EstimateIsCeiling | chunk/chunk.go:128-138 | four times the default estimate is the rune count or up to three more |
| Budget.ProseCutsWithin | chunk/chunk.go:274-303 | the budget holds for every window of one to 4w bytes per token, w being the widest rune |
| Budget.SplitStaysInBudget | chunk/chunk.go:145-303 | under the default estimator no chunk of single-byte text is over the caller's budget or 512, and no chunk of any text over four times that, through every path and under any rounding of the window |
| Budget.PackedCountHonest | chunk/chunk.go:186-195 | the summed count of m gap-free units is at least the estimate of the chunk's text and exceeds it by at most 3m/4 |
| Budget.SplitCountsHonest | chunk/chunk.go:145-303 | every cut of a gap-free Split carries at least the estimate of its own text; it is whole units counted at most 3m/4 too high and in budget, or a piece of one oversize unit |
| Budget.SplitNeverUndercounts | chunk/chunk.go:145-303 | no chunk of a gap-free Split is counted below the estimate of its own text, through every path |
| Batching.PackBatches | embed/embed.go:244-262 | the loop returns the specified greedy batches |
| Batching.BatchesFlatten | embed/embed.go:244-262 | the batches in order are the items: none lost, repeated or moved |
| Batching.BatchesFit | embed/embed.go:240-262 | each batch is not empty, obeys the input cap, and the token cap unless it is a single input |
| Batching.BatchesAreFull | embed/embed.go:244-262 | no batch leaves out a next item that fits both caps |
| Batching.BatchesAreFewest | embed/embed.go:240-262 | no grouping of the items under the two caps has fewer groups |
| Batching.ValidateIff | embed/embed.go:217-230 | an input is accepted exactly when both IDs are set, its text is not blank and its index not negative; it is rejected for the first rule it breaks |
| Embedding.CollectVectors | embed/embed.go:311-319 | a stop exactly when two vectors share an ID, else one entry per vector |
| Embedding.Session.AddBatchFailure | embed/embed.go:357-368 | one failure with all inputs of the batch and their smallest position is appended |
| Embedding.Session.StoreRecords | embed/embed.go:326-344 | records are stored in order up to the first item without a vector |
| Embedding.Session.AcceptReply | embed/embed.go:311-345 | a duplicate ID, a wrong count or a missing ID fails the batch, else every item gets a record |
| Embedding.Session.EmbedBatch | embed/embed.go:273-345 | the shared state after one batch, and whether the run was canceled in it |
| Embedding.Session.Bisect | embed/embed.go:300-306 | the first half, then the second unless the first was cut short |
| Matching.RequestIDInjective | embed/embed.go:347-352 | different positions have different request IDs |
| Matching.AllAnswered | embed/embed.go:320-332 | as many distinct IDs as inputs, all of them requested, leave no input unanswered |
| Matching.OneToOneAccepted | embed/embed.go:311-345 | a one-to-one response adds no failure, a record for every position and no other, each with its own input's provenance, text and count and the vector answered for it |
| Matching.AnswerOrderFree | embed/embed.go:311-345 | any permutation of a response has the same effect |
| Accounting.EmbedCovers | embed/embed.go:273-345 | any client: exactly the items reached, a prefix of the batch, become mentioned, no failure covers one twice, and each new failure reports the very inputs at the positions it covers |
| Accounting.AcceptedGains | embed/embed.go:311-345 | any response: each item of the batch is mentioned once more, and once again exactly where the response is torn; a failure reports the inputs at its positions |
| Accounting.EmbedGains | embed/embed.go:273-345 | the same count through bisection and cancellation, each new failure reporting the inputs at its positions |
| Accounting.HonestNeverTorn | embed/embed.go:320-332 | responses that hold only requested IDs are never torn |
| Bisection.EmbedCalls | embed/embed.go:300-306 | a batch of n costs at most 2n - 1 calls for any client |
| Bisection.EmbedAnswers | embed/embed.go:273-345 | a record a batch stores holds its own input's provenance, text and count and, as its vector, the values that the reply to one of the batch's own requests gave for its position's ID; that request sent the input's own text under this ID |
| Bisection.BisectionIsolates | embed/embed.go:264-309 | against a client that fails exactly on poison inputs, the failures are one per poison input, each of that input alone, in order |
| Bisection.BisectionStoresRest | embed/embed.go:264-345 | an input of the batch gets a record exactly when it is not poison |
| Bisection.BisectionCost | embed/embed.go:273-309 | a batch of n with k poison inputs costs at most 1 + 2k ceil(log2 n) calls |
| Bisection.CeilLog2IsLog | embed/embed.go:301-306 | the number of halvings is the logarithm to base 2, rounded up |
| RunCalls.RunCallsBounded | embed/embed.go:203-212 | a run over n valid inputs in b batches makes at most 2n - b calls, for any client |
| RunCalls.RunCost | embed/embed.go:203-212 | a run with k poison inputs makes at most one call a batch and 2k ceil(log2 m) more, m being the input cap |
| RunReplies.RunCanceledIff | embed/embed.go:184-215 | a run looks at its context once before each batch and once after each error, and is canceled exactly when a look finds it done or an error carries a cancellation |
| RunReplies.RunFailures | embed/embed.go:173-215 | each returned failure is an invalid input's, for the first rule broken and not retryable, or belongs to a reply to the very inputs it reports: an error without a cancellation, retryable as that error is, or a mismatched response, not retryable; and each mismatched response is among them |
| RunReplies.RunSends | embed/embed.go:184-215 | each request holds sendable inputs only, in input order, each by its own text under its own ID, within the input cap and, unless it holds one input, the token cap |
| RunReplies.ItemsAreSendable | embed/embed.go:184-201 | what is batched is each sendable input once, in order, with its own token count |
| RunReplies.RunBatchesPacked | embed/embed.go:203-212 | the batches are those items in order, each within the caller's caps or 96 and 20,000, none with room for the next item |
| RunReplies.RunSendsOnce | embed/embed.go:203-212 | unless a call is bisected the requests are the batches one by one, all of them when the run is not canceled |
| RunReplies.RunBisects | embed/embed.go:300-306 | with bisection each failed call for several inputs is followed at once by its first half and, unless the run is canceled, later by its second |
| Runner.Assemble | embed/embed.go:379-392 | records by ascending position, failures in stable order of their first position |
| Runner.Run | embed/embed.go:184-215 | the result is that of validating all inputs and embedding the batches until done or canceled |
| RunOrder.RunReports | embed/embed.go:357-368 | every failure of a run reports exactly the inputs at the positions it covers, in ascending position, tagged with the first |
| RunResults.ResultReads | embed/embed.go:379-392 | the returned records and failures are, one by one, the inputs at the positions the run stored and failed |
| RunResults.RecordsAnswered | embed/embed.go:184-215 | each returned record holds its own input's provenance, text and count and a vector that some reply gave for that input's ID |
| RunResults.RunAccounts | embed/embed.go:173-215 | any client, any cancellation: the returned records and failures hold exactly the invalid inputs and a prefix of the valid ones, no position in two failures |
| RunResults.RunConserves | embed/embed.go:173-215 | a run without error returns every input, in a record or among the inputs of a failure, and nothing that is not an input |
| RunResults.RunCounts | embed/embed.go:184-215 | how often the result returns each position, for any client: once if invalid or reached, and once more per torn response |
| RunResults.RunExactlyOnceIff | embed/embed.go:184-215 | a run without error returns exactly its inputs, each once, if and only if no response is torn |
| RunResults.RunExactlyOnce | embed/embed.go:173-215 | when responses hold only requested IDs: the result returns exactly the inputs, each once, and after cancellation exactly the invalid ones and a prefix of the valid ones |
| RunResults.TornRunExample | embed/embed.go:326-345 | a run of two inputs that returns no error, a record of the first input, and a failure with both |
| RunResults.TornRunMentions | embed/embed.go:326-345 | in the count by positions, that run mentions position 0 twice |
| RunOrder.RecordsAscend | embed/embed.go:380-385 | the records come in strictly increasing input position |
| RunOrder.SortIsStable | embed/embed.go:386 | failures of one position keep their order |
| RunOrder.FailuresStrictlyOrdered | embed/embed.go:377-392 | for any client the returned failures come in strictly increasing position of their first input |
| RunOrder.RunRecordsAnswer | embed/embed.go:184-215 | every record of a run holds its own position's input and, as its vector, the values that the reply to a request the run sent gave for that position's ID; that request sent the input's own text under this ID |
| RunOrder.RunIsolates | embed/embed.go:184-215 | over a whole run each valid poison input ends alone in its own failure and every other valid input gets a record |
| Normalize.NormalizeWhitespace | extract/extract.go:269-286 | the loop returns the specified text |
| Normalize.NormalizeIdempotent | extract/extract.go:265-286 | normalizing twice is normalizing once |
| Normalize.NormalizeKeepsText | extract/extract.go:265-286 | the result holds exactly the source's lines with text, trimmed, in order and in the same paragraphs, with no two blank lines together and none at an edge |
| Normalize.ParagraphsAtBlankLines | extract/extract.go:265-286 | on a normalized text Paragraphs cuts behind the blank lines and nowhere else |
| Readers.LimitReader.Read | extract/extract.go:333-348 | one read: at most one byte past the allowance is asked for, the allowance is charged, and the error comes once it is overdrawn |
| Readers.ReadPassesOn | extract/extract.go:333-348 | a read gets as much as the buffer, the allowance and one byte, and the source allow; within the allowance it passes the source's end or error on |
| Readers.FailureIsTheSources | extract/extract.go:333-348 | a reading fails only on an error of the source |
| Readers.LimitedReading | extract/extract.go:324-348 | for every schedule of reads: what is handed over is a prefix, a clean end means the whole source within the limit, the too-large error comes exactly after limit + 1 bytes |
| Readers.LimitedDrain | extract/extract.go:324-348 | a source that keeps delivering is drained: delivered unchanged within the limit, always the error beyond it |
| Readers.PartDecoder.Read | extract/pptx/pptx.go:308-371 | a part is read under what is left of the budget and the rest is carried on |
| Readers.PartsShareBudget | extract/pptx/pptx.go:308-433 | over any run of parts the bytes read are the budget minus what is left; a successful run never exceeds the budget, any run exceeds it by at most one byte |
| Readers.PartsInTurn | extract/pptx/pptx.go:308-433 | each part is read under what the bytes before it left of the budget, an ended part is whole, and the run ends at the first error |
| Slides.SortedSlides | extract/pptx/pptx.go:186-201 | exactly the numbered slide parts, by ascending number |
| Slides.SlideNumberIff | extract/pptx/pptx.go:186-201 | a part is numbered n exactly when its name is the prefix, a sign or none, digits that read as n, and the suffix, and n fits 64 bits |
| Slides.SlideNameRoundTrip | extract/pptx/pptx.go:186-201 | the number printed into a part's name is read back |
| Slides.NumberedSlidesAre | extract/pptx/pptx.go:186-201 | each file with such a name is a slide under its number, as often as it is listed, and no other is |
| Slides.ResolveOrder | extract/pptx/pptx.go:214-233 | the two loops return the specified order |
| Slides.ResolveOrderContract | extract/pptx/pptx.go:209-233 | each name once, the referenced parts first, the rest in non-decreasing number, every numbered slide part there |
| Slides.ResolveOrderNames | extract/pptx/pptx.go:209-233 | a name is in the result exactly when it is a numbered slide part, or is mentioned, exists and is a slide part |
| Slides.ReferencedInOrder | extract/pptx/pptx.go:217-225 | the referenced parts come in the order of their first mention |
| Slides.NilOrder | extract/pptx/pptx.go:209-233 | without a presentation order the result is the file order exactly when no two slide files share a name |
| Slides.SlideTwiceExample | extract/pptx/pptx.go:226-231 | an archive with two slide parts of one name, of which the result holds only the first |

## Left out

- 64-bit integers: lengths, counts and the reader's `remaining + 1` are unbounded integers, so overflow at the largest limit is not modelled.
- Lengths and budgets above 2^53, and subnormal results: there float64 does not hold every whole number, or loses more than one part in 2^52, which the rounding of the byte windows is taken not to do.
- Float64.WindowIsNear: stated for windows up to 2^50 bytes.
- Nil and empty: Split's nil result and an empty slice are the same sequence.
- llms.EstimateTextTokens: the standard estimator is not part of this model; the estimator is a parameter.
- Titles, metadata and its cloning, model, purpose, task, dimensions and the text of errors: values carried along without logic.
- Concurrent change of the context: a cancellation is seen where the source looks for it, at each poll or in the client's error.
- Embedding.Session.EmbedBatch: the vector values are reals and are not copied, so that a record's vector is no alias of the response is not modelled.
- Readers.LimitReader.Read: a source that misreports its byte count or reuses the buffer it was given is not modelled.
- Readers.PartDecoder.Read: the archive, the XML decoder and the check for cancellation between tokens appear only as some sequence of reads.
- presentationOrder, relationships and notesFor in extract/pptx: look-ups over parsed XML.
- Slides.ResolveOrder: the archive's index by name is assumed to list every entry under its own name.
- ExtractText, the registry, plain text and Markdown front matter, and page splitting: single-branch checks and library calls.
- extract/html, extract/docx, extract/pdf: walks over library parsers and child processes; the capped reader of docx follows the same rule as the one modelled.
- content, store, preset and the test fakes: validation, hashing, cloud storage and registration, with no logic of this kind.
