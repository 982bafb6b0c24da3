# Transit Scholar: a verified model of its document pipeline and record-keeping

Transit Scholar turns PDF papers into a local research library. This project models its hard core in
Dafny and proves what the core promises:

- **The Layer2 document pipeline.** Parser items become canonical blocks and sections (`Normalizer`),
  blocks become token-bounded chunks with exact source references (`Units`, `Splitting`, `TableRows`,
  `Trimming`, `Chunker`), a parse is validated (`Validation`), and runs are stored, reused, rebuilt
  and promoted on disk (`Pipeline`).
- **Research runs.** Runs and the conversation turns that wait for them, with crashes between any two
  transactions and the repair at startup (`Research`, `ResearchLifecycle`).
- **Paper identity.** Moving files to the trash and back with compensation (`SoftDelete`), and
  duplicate detection and adjudication (`Duplicates`).
- **Metadata.** Fetching from providers under a retry budget (`Enrichment`, `Cascade`), choosing one
  candidate per field and writing it into the paper (`Selection`, `MetadataStore`).

Each algorithm appears twice: as a method with the loops and the mutable state of the source, and as a
function that the method is proved to compute. The theorems are about the functions, so they hold for
the loops. Modules named `...Guarantees`, `ChunkCoverage`, `CaptionBinding`, `Composition`,
`CaptionLookup`, `SplitLaws`, `Greedy`, `ChunkFields`, `PackingRuns`, `DocumentFields`, `Tiling`,
`UnitCoverage`, `KeptDocuments`, `SmallDocuments`, `RunHistory`, `StaleCache`, `DetectionReports` and
`ResearchLifecycle` hold the theorems; the others hold the model.
`Prelude` has the list and text helpers and `Schema` the document entities.

Three design points carry most proofs:

- `TokenCounter` replaces the regular expression by a local test on each position. Token counts are then
  monotone over prefixes, bounded by the length, and additive across neutral characters.
- A crash is a prefix of a list of writes (`Pipeline`) or a stop between transactions
  (`ResearchLifecycle`), so one theorem covers every crash point.
- Where a promise fails, the exact condition under which it holds is proved, with a concrete
  counterexample beside it.

## Where the code and its documentation differ

The model follows the code.

- The docstring at src/transit_scholar/layer2/chunker.py:667 says that each range is within the token
  limit. It is not (`Splitting.ProportionalMayExceed`), except where `Splitting.SplitFitsExactly` says; the
  guard at assembly keeps the cap.
- The comment at src/transit_scholar/layer2/chunker.py:302 calls that guard unreachable. It is not
  (`SmallDocuments.FragmentStartsAgain`): it trims an overlong fragment from the beginning of its block, so
  text is repeated and lost. `KeptDocuments.DocumentKeptExactly` says exactly when nothing is.
- The hard cap of a chunk needs a limit of at least two tokens (`ChunkGuarantees.CapExactlyFromTwo`).
- Row ranges of a long table can claim the last row twice (`SmallDocuments.RowInTwoChunks`);
  `TableRows.RowRangesPartition` says exactly when they do not.
- A rebuild that stops halfway can leave stale derived files that a later call reuses without noticing
  (`StaleCache.StaleRun`); no other stop can (`PipelineGuarantees.StepSoundExact`).
- Detection marks papers with a pending relation (src/transit_scholar/identity/service.py:187-196), but a
  restored paper becomes active while one is pending, and detecting again does not mark it. No other
  operation loses the mark (`Duplicates.ConverseExact`).
- The comment in src/transit_scholar/identity/service.py:690-693 speaks of later failures, but a failing
  commit is not compensated (`SoftDeleteGuarantees.CommitFailureExact`).
- The docstring at src/transit_scholar/metadata/selection.py:228-235 says that the paper can never
  diverge from the selection. It can, for an implausible year or undecodable authors
  (`MetadataGuarantees.MaterializedShowsExactly`).
- The docstring at src/transit_scholar/metadata/selection.py:435-444 says that the latest user edit keeps
  winning. It does not for a value confirmed before, nor within one tick of the clock
  (`MetadataGuarantees.LatestEditWinsExactly`).
- The last entry of the backoff schedule in src/transit_scholar/doi_enrichment/service.py:74 is never
  used with the configured budget (`Enrichment.LastStepUnused`).

## Model

| member | source | states |
|---|---|---|
| TokenCounter.CountTokens | src/transit_scholar/layer2/util.py:30-41 | The loop counts the leftmost non-overlapping matches of the word expression plus one per CJK character; the result equals a count of positions decided by two characters of context |
| TokenCounter.FindAllCountsStarts | src/transit_scholar/layer2/util.py:12 | The regular-expression scan and the local characterisation of token starts agree from every scan point |
| TokenCounter.ClassesExactly | src/transit_scholar/layer2/util.py:12-40 | The character classes of the expression and of the CJK count, by code point |
| TokenCounter.FindAllIsLeftmost | src/transit_scholar/layer2/util.py:12 | The matches are words in order, each the longest that starts where it starts, and every word character lies in one of them |
| TokenCounter.PrefixMonotone | src/transit_scholar/layer2/util.py:30-41 | Longer prefixes never have fewer tokens |
| TokenCounter.AtMostLength | src/transit_scholar/layer2/util.py:30-41 | A text never has more tokens than characters |
| TokenCounter.CutBound | src/transit_scholar/layer2/util.py:30-41 | Counting the two sides of a cut finds every token of the whole and at most one twice |
| TokenCounter.CutExact | src/transit_scholar/layer2/util.py:30-41 | Counting is exactly additive across a cut next to a character that is neither word character nor joiner |
| TokenCounter.AcrossSeparator | src/transit_scholar/layer2/util.py:30-41 | A separator of neutral characters costs nothing and separates exactly |
| TokenCounter.SliceAtMost | src/transit_scholar/layer2/util.py:30-41 | A slice never has more tokens than the text |
| TokenCounter.JoinTokens | src/transit_scholar/layer2/chunker.py:281-300 | Joined parts cost exactly the sum of the parts |
| Splitting.SplitBySentenceThenTokens | src/transit_scholar/layer2/chunker.py:666-721 | The nested loops over sentences, fragments and proportional parts return the ranges of the specification |
| Splitting.SplitByTokenProportion | src/transit_scholar/layer2/chunker.py:724-740 | The loop over parts returns the proportional ranges |
| Splitting.FindSentences | src/transit_scholar/layer2/chunker.py:673-690 | The scanning loop returns the sentence ranges |
| Splitting.MergeSentences | src/transit_scholar/layer2/chunker.py:692-711 | The merging loop returns the fragments |
| SplitLaws.SentencesExactly | src/transit_scholar/layer2/chunker.py:673-690 | The sentences cover the text in order, and one ends inside it exactly where a new one begins: after an end mark and the gaps that follow it |
| SplitLaws.FragmentsExactly | src/transit_scholar/layer2/chunker.py:692-711 | The fragments are the greedy runs of the sentences: one ends before the next sentence exactly when the tokens of both, counted sentence by sentence, exceed the limit |
| SplitLaws.WindowsExactly | src/transit_scholar/layer2/chunker.py:724-740 | An overlong range is cut into the fewest parts that could hold its tokens, all of the same length but the last |
| SplitLaws.SplitExactly | src/transit_scholar/layer2/chunker.py:712-721 | The ranges of a text are those of its fragments in order, each kept or cut into its windows |
| Greedy.RunsUnique | src/transit_scholar/layer2/chunker.py:404-417 | A list has only one greedy cut into runs |
| Splitting.SplitTextSound | src/transit_scholar/layer2/chunker.py:666-740 | The ranges cover a non-empty text once, in order, none empty; a range above the limit lies inside one sentence that alone exceeds it; the empty text gives one empty range |
| Splitting.CoversOnce | src/transit_scholar/layer2/chunker.py:666-740 | In such a cover every character lies in exactly one range |
| Splitting.ProportionalCovers | src/transit_scholar/layer2/chunker.py:724-740 | Proportional parts cover their sentence, none empty, since there are never more parts than characters |
| Splitting.ShortSentencesFit | src/transit_scholar/layer2/chunker.py:666-721 | When no sentence exceeds the limit, no range does and the proportional split never runs |
| Splitting.ProportionalMayExceed | src/transit_scholar/layer2/chunker.py:667-677 | A concrete text at limit 1 gives a range of two tokens, against the documented bound |
| SmallDocuments.FragmentStartsAgain | src/transit_scholar/layer2/chunker.py:61-340 | A document of one paragraph of four words, normalized and chunked at a cap of two tokens: the second fragment exceeds the limit, so its chunk starts again at the beginning of the block and the last two words are in no chunk |
| Splitting.SplitFitsExactly | src/transit_scholar/layer2/chunker.py:666-740 | Every range is within the limit exactly when each sentence above it, cut into the fewest windows of equal length that could fit, has only windows within it |
| TableRows.GroupLines | src/transit_scholar/layer2/chunker.py:404-417 | The greedy loop returns the row groups |
| TableRows.GroupsSound | src/transit_scholar/layer2/chunker.py:404-417 | The groups concatenate to the body lines, none is empty unless there is no line, and a group of two or more lines fits the budget |
| SplitLaws.GroupsExactly | src/transit_scholar/layer2/chunker.py:404-417 | The groups are the greedy runs of the lines beside the fixed part, and a table without lines has one empty group |
| SplitLaws.RowCountExactly | src/transit_scholar/layer2/chunker.py:529-540 | The row count is one more than the largest stated row, when every stated row can be read |
| SplitLaws.RangesExactly | src/transit_scholar/layer2/chunker.py:419-444 | The rows of a group begin where its first line does and end where the next group begins, but after at least one row; the last group ends with the table |
| TableRows.RowRangesGapFree | src/transit_scholar/layer2/chunker.py:419-444 | Row ranges are non-empty, start at 0, end at the row count and leave no gap, exactly when the table has a row |
| TableRows.RowRangesPartition | src/transit_scholar/layer2/chunker.py:419-444 | The ranges partition the rows exactly when there is one group or the last group but one starts above the last row; fewer body lines than rows always suffice |
| TableRows.LastRowMayOverlap | src/transit_scholar/layer2/chunker.py:419-444 | Three lines grouped at a budget of two tokens over two rows: two ranges claim the last row |
| SmallDocuments.RowInTwoChunks | src/transit_scholar/layer2/chunker.py:61-472 | A document of one table, normalized and chunked at a cap of two tokens: the last two of its three chunks claim the same row |
| Units.MakeUnits | src/transit_scholar/layer2/chunker.py:103-152 | The three loops over captions, structured blocks and remaining blocks return the units of the specification |
| Units.CollectCaptions | src/transit_scholar/layer2/chunker.py:103-116 | The caption dictionary, a repeated id replacing its value in place |
| Units.CollectChildren | src/transit_scholar/layer2/chunker.py:117-132 | The captions of each structured block: its own list, else those that claim it, by reading order |
| CaptionLookup.CaptionsExactly | src/transit_scholar/layer2/chunker.py:103-116 | The caption dictionary has one entry for each caption id, the last caption of that id |
| CaptionLookup.ChildrenExactly | src/transit_scholar/layer2/chunker.py:117-132 | A block gets the captions it lists as far as there are any, otherwise those that name it as their parent, by reading order |
| Units.CutOverlong | src/transit_scholar/layer2/chunker.py:344-370 | An overlong unit is split by rows, by block or not at all, as specified |
| Units.CutTable | src/transit_scholar/layer2/chunker.py:372-472 | The row fragments of an overlong table with its caption and header repeated |
| Units.CutRows | src/transit_scholar/layer2/chunker.py:423-472 | One fragment per row group, each with its row range |
| Units.CutBlocks | src/transit_scholar/layer2/chunker.py:474-499 | The fragments of all blocks of a unit in order |
| Trimming.SearchPrefix | src/transit_scholar/layer2/chunker.py:636-647 | The binary search finds the longest prefix within the budget |
| Trimming.LongestFitting | src/transit_scholar/layer2/chunker.py:636-647 | The prefix fits and every longer one exceeds the budget |
| Trimming.TrimUnitText | src/transit_scholar/layer2/chunker.py:613-663 | The trimming loop returns the trimmed unit of the specification |
| Trimming.TrimUnitFits | src/transit_scholar/layer2/chunker.py:613-663 | A trimmed unit never exceeds its budget |
| Trimming.TrimKeepsLongest | src/transit_scholar/layer2/chunker.py:613-663 | Of the blocks with text, trimming keeps the leading ones that fit as a whole, then the longest prefix of the next one, then nothing; what is left of the budget for that prefix is the budget minus the tokens of the whole blocks |
| Trimming.PartialIsLongest | src/transit_scholar/layer2/chunker.py:636-663 | That prefix uses the remaining budget up exactly and one more character would exceed it |
| Trimming.EffectivePrefixLongest | src/transit_scholar/layer2/chunker.py:542-562 | The context prefix is the longest run of leading titles below the cap, never less than one title; compacted exactly when the whole path reaches the cap |
| Trimming.ChoosePrefix | src/transit_scholar/layer2/chunker.py:542-562 | The loop over path items returns that prefix |
| Trimming.ApplyGuard | src/transit_scholar/layer2/chunker.py:565-610 | The three-stage guard with its loops returns the trimmed chunk of the specification |
| Trimming.TrimAssembledFits | src/transit_scholar/layer2/chunker.py:565-610 | For every cap of at least two tokens the guarded chunk fits, whatever the units and the prefix, and the shortened prefix is a prefix of the original |
| Trimming.GuardExactly | src/transit_scholar/layer2/chunker.py:565-610 | Everything the guard makes of a chunk: the longest run of units within what the prefix leaves, at least one and trimmed when too long, and a prefix shortened, and marked, exactly when it does not fit beside that body |
| Chunker.SectionPath | src/transit_scholar/layer2/chunker.py:517-526 | The walk over parent links ends for every acyclic set of sections and returns the titles from the root down |
| Chunker.AssembleChunk | src/transit_scholar/layer2/chunker.py:269-340 | Assembly with its guard returns the chunk of the specification |
| Chunker.AssembleFits | src/transit_scholar/layer2/chunker.py:269-340 | Every assembled chunk counts its own text, and is within any cap of at least two tokens |
| ChunkFields.FieldsExactly | src/transit_scholar/layer2/chunker.py:281-340 | Everything a chunk records besides its text: pages, types and captions without repeats in order of first appearance, the row range, section, path and version |
| Chunker.SequentialIds.NextId | src/transit_scholar/layer2/util.py:44-58 | Each call returns the next number and moves the counter forward by one |
| Chunker.Packer.Add | src/transit_scholar/layer2/chunker.py:236-262 | One round of the packing loop on the mutable buffer equals one step of the specification |
| Chunker.Packer.CloseBuffer | src/transit_scholar/layer2/chunker.py:221-234 | Flushing emits the buffer as one chunk and empties it |
| Chunker.ChunkSection | src/transit_scholar/layer2/chunker.py:200-267 | The packing of a whole section equals its specification |
| Chunker.SplitIntoBuckets | src/transit_scholar/layer2/chunker.py:75-83 | Blocks are collected by section in order of first appearance |
| Chunker.BuildChunks | src/transit_scholar/layer2/chunker.py:61-101 | The whole build equals the specification function that all chunk theorems are about |
| ChunkGuarantees.BuildSound | src/transit_scholar/layer2/chunker.py:61-340 | For any blocks with distinct ids, acyclic sections and configuration: chunk ids count from one; every chunk counts its text, its prefix is a prefix of its section path, and its references are in bounds; when it has no row range its body is the join of the referenced slices in order, also when trimmed |
| ChunkGuarantees.BuildCapped | src/transit_scholar/layer2/chunker.py:61-340 | With a hard cap of at least two tokens no chunk of any build exceeds it, whatever the blocks and their ids |
| ChunkGuarantees.CapExactlyFromTwo | src/transit_scholar/layer2/chunker.py:542-610 | The cap holds for all documents exactly when it is at least two |
| ChunkGuarantees.TextUnitExact | src/transit_scholar/layer2/chunker.py:154-163 | A text unit references exactly its block text |
| ChunkGuarantees.StructuredUnitExact | src/transit_scholar/layer2/chunker.py:165-196 | A structured unit references its block and captions, and its body is their join |
| Composition.UnitsWellMade | src/transit_scholar/layer2/chunker.py:154-196 | Every unit references its blocks as a whole, is counted by them, and carries their types and the text of its captions |
| ChunkGuarantees.SplitOverlongExact | src/transit_scholar/layer2/chunker.py:344-370 | Fragments of an exact unit are exact, and those cut by rows reference existing text |
| ChunkGuarantees.TrimUnitExact | src/transit_scholar/layer2/chunker.py:613-663 | Trimming keeps references and body in step |
| ChunkGuarantees.AssembleGood | src/transit_scholar/layer2/chunker.py:269-340 | Assembly of exact units gives a chunk with exact references |
| ChunkCoverage.FittingIsUntrimmed | src/transit_scholar/layer2/chunker.py:281-300 | Units within the body budget are kept as they are, and beside a prefix below the cap the guard does not fire |
| ChunkCoverage.SingleExact | src/transit_scholar/layer2/chunker.py:281-315 | The chunk of one unit holds that unit exactly when it is within the body budget; otherwise it holds the trimmed unit |
| ChunkCoverage.SectionRefs | src/transit_scholar/layer2/chunker.py:200-267 | For any units, the chunks of a section reference its pieces, each once and in order, where a piece above the body budget is replaced by what trimming keeps of its blocks |
| ChunkCoverage.SectionKeepsExactly | src/transit_scholar/layer2/chunker.py:200-267 | Where no table is split by rows, those references are the ones of the pieces themselves exactly when every piece is within the body budget; otherwise some reference starts at the beginning of its block and ends too early |
| PackingRuns.SectionRuns | src/transit_scholar/layer2/chunker.py:200-267 | The chunks of a section are those of a sequence of runs of its units: a run of fitting units ends before the next fitting unit exactly when that one would exceed the room beside the prefix, or the soft limit once the target is reached, and an overlong unit stands alone |
| PackingRuns.RunsUnique | src/transit_scholar/layer2/chunker.py:236-267 | The units determine those runs |
| ChunkCoverage.AllPiecesTile | src/transit_scholar/layer2/chunker.py:344-370 | The pieces of units not split by rows tile the text of every block |
| ChunkCoverage.BlockFitsExactly | src/transit_scholar/layer2/chunker.py:474-499 | The pieces of a block are within the budget exactly when each sentence above it cuts into windows within it |
| ChunkCoverage.TableFragments | src/transit_scholar/layer2/chunker.py:372-472 | The fragments of a table split by rows carry all its body lines in order, each beside header and caption as far as there is room, with their references, types and caption; their row ranges are gap-free exactly when it has a row, and partition the rows exactly when there is one fragment or the last but one starts above the last row |
| ChunkCoverage.FrameExactly | src/transit_scholar/layer2/chunker.py:382-402 | What the fragments of a table share: header, body lines, caption, whether it is in the body, and the tokens set aside for both |
| ChunkCoverage.TableChunksGapFree | src/transit_scholar/layer2/chunker.py:236-267 | Packing such a table adds chunks that all carry a row range, gap-free exactly when it has a row |
| ChunkCoverage.FragmentChunkBodies | src/transit_scholar/layer2/chunker.py:236-340 | The chunk of each fragment of an overlong unit holds the text of that fragment exactly when the fragment is within the body budget |
| Tiling.TilesAppendExactly | src/transit_scholar/layer2/chunker.py:613-663 | References of separate blocks tile them together exactly when each part tiles its own blocks |
| Tiling.ShrunkTilesExactly | src/transit_scholar/layer2/chunker.py:613-663 | Of references that trimming shrank from a tiling only the tiling itself still tiles the blocks |
| Tiling.TrimmedTilesExactly | src/transit_scholar/layer2/chunker.py:613-663 | What trimming keeps of a unit tiles its blocks exactly when their tokens are within the budget |
| UnitCoverage.RowSplitNeverTiles | src/transit_scholar/layer2/chunker.py:372-472 | The chunks of a table split by rows never reference the text of its blocks exactly once |
| UnitCoverage.UnitTilesExactly | src/transit_scholar/layer2/chunker.py:236-267 | The chunks of a unit reference the text of its blocks exactly once if and only if it fits, or is not split by rows and its sentences split into fitting windows |
| UnitCoverage.SectionTilesExactly | src/transit_scholar/layer2/chunker.py:200-267 | The same for all units of a section at once |
| KeptDocuments.DocumentKeptExactly | src/transit_scholar/layer2/chunker.py:61-267 | For every parser result the chunk references tile every block text exactly once if and only if, in every section, each sentence above what the prefix leaves of the cap cuts into windows within it and each table with rows fits there together with its captions |
| Normalizer.GroupItems | src/transit_scholar/layer2/normalizer.py:146-170 | The grouping loop returns the groups of the specification |
| Normalizer.MergeGroup | src/transit_scholar/layer2/normalizer.py:182-202 | The merging loop returns the merged block with its provenance |
| Normalizer.PopSections | src/transit_scholar/layer2/normalizer.py:126-130 | The popping loop leaves the entries below the first one that is at least as deep |
| Normalizer.BuildBlocks | src/transit_scholar/layer2/normalizer.py:172-202 | The building loop over groups and the section stack equals its specification |
| Normalizer.LinkCaptions | src/transit_scholar/layer2/normalizer.py:314-336 | The linking loop gives every caption the structured block it follows and every structured block exactly its captions |
| Normalizer.NumberBlocks | src/transit_scholar/layer2/normalizer.py:206-207 | Blocks are numbered from one in reading order |
| NormalizerGuarantees.NormalizeItems | src/transit_scholar/layer2/normalizer.py:100-234 | The whole normalization equals the specification function that the theorems are about |
| NormalizerGuarantees.SortSound | src/transit_scholar/layer2/normalizer.py:111-115 | Sorting keeps every item once, in (order, page) order |
| DocumentFields.SortExactly | src/transit_scholar/layer2/normalizer.py:111-115 | Items are read by order and then by page, and items of one position keep the order of the parser |
| NormalizerGuarantees.GroupsSound | src/transit_scholar/layer2/normalizer.py:146-170 | The groups concatenate to the sorted items; only paragraphs share a group |
| NormalizerGuarantees.MergesExactly | src/transit_scholar/layer2/normalizer.py:340-411 | When an item continues the one before it: fonts, boxes and text spelled out with their tolerances |
| NormalizerGuarantees.GroupsExactly | src/transit_scholar/layer2/normalizer.py:146-170 | Two neighbouring items share a group exactly when the later one continues the earlier |
| NormalizerGuarantees.MergedBlockSound | src/transit_scholar/layer2/normalizer.py:182-202 | A block lists exactly its items as sources, its pages are the pages of its items, and its provenance tiles its text when every item has a page |
| NormalizerGuarantees.MergedBlockText | src/transit_scholar/layer2/normalizer.py:182-202 | The text of a block is cut into one slice for each item of its group: the text of the first by its type, then each later one after a space or directly after a hyphen; the provenance names exactly the slices of the items that have a page |
| NormalizerGuarantees.NothingLost | src/transit_scholar/layer2/normalizer.py:111-202 | The source items of the blocks are the sorted parser items, none lost, repeated or moved; each block is made from one group of them, its text is theirs joined slice by slice, and its provenance tiles it where every item of that group has a page |
| DocumentFields.SectionsExactly | src/transit_scholar/layer2/normalizer.py:117-180 | Every section is opened by one heading group, with its title, level, number and block, and every block lies in the section of the last heading before it |
| DocumentFields.PayloadExactly | src/transit_scholar/layer2/normalizer.py:215-311 | Every block carries the payload its type keeps of the item that begins it, and the page count is the declared one or else the largest page named |
| NormalizerGuarantees.PopFindsNearest | src/transit_scholar/layer2/normalizer.py:126-131 | The top of the popped stack is the nearest earlier section of strictly smaller level |
| NormalizerGuarantees.AddAllTree | src/transit_scholar/layer2/normalizer.py:126-144 | Every section keeps that parent, counts up its id and has a level of at least one |
| NormalizerGuarantees.SectionTreeSound | src/transit_scholar/layer2/normalizer.py:126-144 | On all normalizer output the walk up ends, and a section path is the titles of the strictly deepening ancestor chain |
| CaptionBinding.UnitBlocks | src/transit_scholar/layer2/chunker.py:103-152 | The units of a linked section hold its blocks in reading order with only the parentless captions moved to the end |
| CaptionBinding.EveryBlockInOneUnit | src/transit_scholar/layer2/chunker.py:103-152 | Every block of the section lands in exactly one unit |
| Composition.DocumentTexts | src/transit_scholar/layer2/chunker.py:507-514 | For every block the normalizer makes, the text the chunker cuts is the canonical block text |
| Composition.BucketsGiveReadingOrder | src/transit_scholar/layer2/chunker.py:75-83 | The section buckets in order of first appearance give back the reading order |
| Composition.NormalizedIsChunkable | src/transit_scholar/layer2/normalizer.py:100-234 | Normalizer output has distinct ids, acyclic sections and complete caption links |
| Composition.NormalizedNothingLost | src/transit_scholar/layer2/chunker.py:61-267 | Any parser result, normalized and chunked: every block lands in exactly one unit, and the chunk references tile every block text exactly once if and only if every unit of every section is kept |
| Composition.NormalizedChunksSound | src/transit_scholar/layer2/chunker.py:61-340 | All chunk guarantees hold for every normalized document |
| Validation.ValidateParse | src/transit_scholar/layer2/validation.py:60-216 | The checks with their loops return the verdict of the specification |
| Validation.CountPages | src/transit_scholar/layer2/validation.py:341-355 | The dictionary loop sums, per page, the characters of the blocks that name it |
| Validation.MeaningfulTextPageRatio | src/transit_scholar/layer2/validation.py:341-364 | The ratio loop, with unknown coverage when nothing names a page |
| Validation.CheckProvenance | src/transit_scholar/layer2/validation.py:158-163 | The flag is set exactly when some entry names an illegal page |
| Validation.CheckStructure | src/transit_scholar/layer2/validation.py:172-186 | The flag is set exactly when some id, type, heading or parent is invalid |
| Validation.ProvenanceExact | src/transit_scholar/layer2/validation.py:158-170 | Normalizer output has legal pages exactly when the parser kept its declared page range |
| Validation.StructureExact | src/transit_scholar/layer2/validation.py:172-193 | Normalizer output is structurally valid exactly when the parser used allowed types |
| Validation.NormalizedPassesHardChecks | src/transit_scholar/layer2/validation.py:95-202 | For an ok parser result page count and order always pass, and under those two conditions validation fails exactly on a near-empty body |
| Validation.VerdictExactly | src/transit_scholar/layer2/validation.py:60-216 | The verdict of any result: failed without an output or with one that misses a check, each spelled out, and otherwise degraded or passed |
| Validation.PageCharsExactly | src/transit_scholar/layer2/validation.py:341-355 | Each block adds its length to a page once for every entry that names it |
| Pipeline.RunParseChain | src/transit_scholar/layer2/pipeline.py:224-305 | The adapter loop returns the acceptance of the specification |
| Pipeline.AcceptExact | src/transit_scholar/layer2/pipeline.py:224-305 | A chain passes exactly when some adapter passes after the primary did not and the fallbacks before gave nothing; it is degraded exactly when its only adapter gave a degraded result; an accepted run has a canonical document |
| Pipeline.AcceptDecided | src/transit_scholar/layer2/pipeline.py:224-305 | One attempt decides: the primary when it passes, else the first usable fallback, else the last; it gives the parser name, the canonical document and the status |
| Pipeline.DifferencesExactly | src/transit_scholar/layer2/pipeline.py:401-415 | A derived key is reported exactly when manifest and configuration disagree on it |
| Pipeline.PaperStore.WriteDerived | src/transit_scholar/layer2/pipeline.py:543-570 | Writes markdown, line map and chunks, up to the crash point |
| Pipeline.PaperStore.RebuildDerived | src/transit_scholar/layer2/pipeline.py:181-216 | Rewrites derived files and then the manifest from the stored canonical files, up to the crash point |
| Pipeline.PaperStore.WriteFresh | src/transit_scholar/layer2/pipeline.py:140-165 | Writes a new run: manifest, canonical and derived files, then current.json if accepted, up to the crash point |
| Pipeline.PaperStore.ParsePaper | src/transit_scholar/layer2/pipeline.py:61-178 | Reuses, rebuilds or parses, as the stored manifest and the triggers decide, up to the crash point |
| PipelineGuarantees.PromotionSafe | src/transit_scholar/layer2/pipeline.py:140-165 | At every crash point current.json names only a run accepted as passed or degraded whose canonical and derived files are all there |
| PipelineGuarantees.EveryRunSafe | src/transit_scholar/layer2/paths.py:88-96 | The same in every history of operations with crashes anywhere |
| PipelineGuarantees.RebuildMatches | src/transit_scholar/layer2/pipeline.py:181-216 | A finished rebuild leaves the derived files its manifest describes |
| PipelineGuarantees.NoDifferenceMeansNoChange | src/transit_scholar/layer2/pipeline.py:370-415 | When the fingerprint shows no difference a rebuild would change nothing: the stored files are those of the configuration |
| PipelineGuarantees.EveryRunSound | src/transit_scholar/layer2/pipeline.py:120-138 | In every history, with stops anywhere but inside a rebuild that had already written something different, the current derived files are those the manifest describes |
| PipelineGuarantees.StepSoundExact | src/transit_scholar/layer2/pipeline.py:61-216 | One operation, finished or stopped anywhere, keeps the derived files as the manifest describes them exactly when it is not a rebuild stopped before its manifest after a line map of another renderer or other chunks |
| PipelineGuarantees.RunSoundExact | src/transit_scholar/layer2/pipeline.py:61-216 | In every history the derived files match the manifest all the way exactly when no step was such a rebuild |
| PipelineGuarantees.ReuseServesConfig | src/transit_scholar/layer2/pipeline.py:120-138 | A reusing parse leaves the derived files of the caller configuration under the same run |
| RunHistory.CurrentAnswersItsRequest | src/transit_scholar/layer2/pipeline.py:61-178 | In every history, with stops anywhere, the current run was created by one of its requests, and its canonical files and manifest are still those of that request |
| RunHistory.NewRunExactly | src/transit_scholar/layer2/pipeline.py:96-139 | A finished call with a ready file and adapters parses into a new run unless it is unforced and the current run was created for the same file, adapters and parsing versions |
| RunHistory.ParsingAgainWritesNothing | src/transit_scholar/layer2/pipeline.py:117-139 | After an accepted parse an unforced call for the same parse writes nothing |
| PipelineGuarantees.StoredChunksSound | src/transit_scholar/layer2/pipeline.py:543-570 | Every stored chunk of the current run has exact references and respects the cap of the stored configuration |
| PipelineGuarantees.CrashedRebuildExact | src/transit_scholar/layer2/pipeline.py:201-214 | A rebuild cut off after some writes leaves a sound cache exactly when it had finished or had not yet written anything different |
| PipelineGuarantees.RevertServesStale | src/transit_scholar/layer2/pipeline.py:126-138 | After such a crash, going back to the old chunker version finds no difference and serves the chunks of the other version |
| StaleCache.StaleRun | src/transit_scholar/layer2/pipeline.py:120-138 | A concrete history that does so: one paragraph parsed, a rebuild under a newer chunker stopped after three writes, and a parse under the older configuration that finds nothing to do |
| PipelineGuarantees.CrashHeals | src/transit_scholar/layer2/pipeline.py:126-138 | A later finished rebuild or reusing parse under the crashed configuration makes the cache sound again |
| Research.ResearchService.PrepareMessage | src/transit_scholar/product/research.py:253-276 | One commit creates a preparing turn linked to a created run, or a failed turn without a run |
| Research.ResearchService.Begin | src/transit_scholar/product/research.py:52-60 | Execution starts only a created run, resumption only a paused one; run and preparing turn become running together |
| Research.ResearchService.Finish | src/transit_scholar/product/research.py:73-101 | A terminal status is kept; otherwise the reported status, or failed after an exception, is committed |
| Research.ResearchService.SyncLinkedTurn | src/transit_scholar/product/research.py:153-166 | Only the turn linked to the run follows the reported status |
| Research.ResearchService.DiscardPreparedMessage | src/transit_scholar/product/research.py:278-286 | Removes the turn if it belongs to the run, and the run only while it is created |
| Research.ResearchService.RepairRuns | src/transit_scholar/product/research.py:194-216 | First transaction of the startup repair, with its loops: interrupted runs paused, orphaned admissions failed |
| Research.ResearchService.SettleTurns | src/transit_scholar/product/research.py:217-243 | Second transaction: turns of finished inactive runs are settled from the durable artifact |
| Research.ResearchService.Reconcile | src/transit_scholar/product/research.py:194-244 | Both transactions; the returned ids are exactly the runs that needed repair |
| ResearchLifecycle.ReconcileRepairs | src/transit_scholar/product/research.py:194-244 | From any stored state no inactive run stays running, no inactive created run keeps a preparing turn, and no inactive terminal run keeps an unfinished turn |
| ResearchLifecycle.RepairedRunsExactly | src/transit_scholar/product/research.py:194-216 | Every run after the repair: an inactive running one is paused, a created one whose turn was preparing has failed, all others stay |
| ResearchLifecycle.RepairedTurnsExactly | src/transit_scholar/product/research.py:194-244 | Every turn after the repair, field by field: the durable answer of a completed run where it loads, the failure of its run, or an interrupted admission; all others stay |
| ResearchLifecycle.ReportedExactly | src/transit_scholar/product/research.py:194-244 | A run is reported exactly when the repair changed it or a turn linked to it |
| ResearchLifecycle.ExecutedExactly | src/transit_scholar/product/research.py:56-110 | What an execution leaves: the status of the run and the answer or error of its turn, for every ending |
| ResearchLifecycle.BegunExactly | src/transit_scholar/product/research.py:56-60 | Starting an execution sets the run and the turn that prepares it running, and nothing else |
| ResearchLifecycle.PreparedExactly | src/transit_scholar/product/research.py:253-276 | An admission commits a turn preparing a created run, or a failed turn alone |
| ResearchLifecycle.DiscardedExactly | src/transit_scholar/product/research.py:278-286 | Taking an admission back removes the turn of the run, and the run unless it has begun |
| ResearchLifecycle.ReconcileKeeps | src/transit_scholar/product/research.py:194-244 | Terminal and active runs and their turns, finished turns and all links are untouched |
| ResearchLifecycle.ReconcileTwice | src/transit_scholar/product/research.py:194-244 | A second repair changes nothing and reports nothing |
| ResearchLifecycle.ReconcileResumes | src/transit_scholar/product/research.py:216-217 | Repeating a repair that crashed between its transactions gives the same result |
| ResearchLifecycle.EveryStepKeeps | src/transit_scholar/product/research.py:52-110 | Every commit of prepare, create, execute, runtime, finish, sync, discard, repair and every crash keeps the lifecycle invariant |
| ResearchLifecycle.TerminalForEver | src/transit_scholar/product/research.py:78-101 | In every history, with crashes anywhere, a terminal run keeps its status and a finished turn its status, answer and error |
| ResearchLifecycle.StartupRepairs | src/transit_scholar/product/research.py:194-244 | After any history and a crash, the repair leaves every unfinished turn waiting for a paused run that can be resumed |
| SoftDelete.PaperLibrary.Preflight | src/transit_scholar/identity/service.py:674-683 | Every source file is present before anything moves |
| SoftDelete.PaperLibrary.MoveAll | src/transit_scholar/identity/service.py:694-706 | The loop makes the planned moves up to the one that raises and stages the row updates |
| SoftDelete.PaperLibrary.Compensate | src/transit_scholar/identity/service.py:707-715 | Completed moves are undone newest first, skipping those that raise |
| SoftDelete.PaperLibrary.SoftDeletePaper | src/transit_scholar/identity/service.py:642-746 | Disk, rows and outcome after a soft delete with any fault |
| SoftDelete.PaperLibrary.RestorePaper | src/transit_scholar/identity/service.py:754-866 | Disk, rows and outcome after a restore with any fault |
| SoftDeleteGuarantees.UndoneExact | src/transit_scholar/identity/service.py:707-715 | Undoing completed moves restores the disk exactly when none overwrote another file |
| SoftDeleteGuarantees.OutcomeExact | src/transit_scholar/identity/service.py:674-737 | With unique rows only a raising move stops the loop, and only a failing commit fails a finished one |
| SoftDeleteGuarantees.RefusedExactly | src/transit_scholar/identity/service.py:642-790 | An operation is refused exactly when the paper is absent, not restorable, or a file that has to move is missing, and then nothing changes |
| SoftDeleteGuarantees.DoneRowsExactly | src/transit_scholar/identity/service.py:685-746 | The rows a finished operation leaves: status, time stamps and paths |
| SoftDeleteGuarantees.DoneDiskExactly | src/transit_scholar/identity/service.py:694-706 | With free targets every file that had to move lies at its new place with its content, and every other file stays |
| SoftDeleteGuarantees.CompensationExact | src/transit_scholar/identity/service.py:695-722 | With working compensation a failed operation leaves disk and rows as before exactly when each completed move had found its destination free |
| SoftDeleteGuarantees.TakenTrashPathIsLost | src/transit_scholar/identity/service.py:695-722 | A concrete library with a taken trash path that compensation does not restore |
| SoftDeleteGuarantees.FreshTargetsCompensate | src/transit_scholar/identity/service.py:695-722 | With free trash (or originals) paths a failed operation leaves no trace, for any number of files |
| SoftDeleteGuarantees.CommitFailureExact | src/transit_scholar/identity/service.py:724-746 | A failing commit is not compensated: rows roll back, the disk is as before exactly when no file had to move |
| SoftDeleteGuarantees.CommitFailureLeavesFileInTrash | src/transit_scholar/identity/service.py:724-746 | A concrete library whose rows are rolled back while the file stays in the trash |
| SoftDeleteGuarantees.RoundTripExact | src/transit_scholar/identity/service.py:642-866 | Soft delete then restore is the identity exactly when the paper was active, unmarked, with its files at their originals paths and their trash paths free |
| Duplicates.DuplicateService.Detect | src/transit_scholar/identity/service.py:98-208 | The loop over the other papers, with its lookups, gives the tables and the answer of the specification |
| Duplicates.DuplicateService.ResolveDuplicate | src/transit_scholar/identity/service.py:270-345 | A decision updates one relation and converges its endpoints, or rolls back on the unique constraint |
| Duplicates.DuplicateService.ConvergeEndpoint | src/transit_scholar/identity/service.py:348-363 | A pending paper without a pending relation becomes active |
| Duplicates.DetectKeeps | src/transit_scholar/identity/service.py:137-198 | Detection touches no old relation, adds only pending relations of its paper and keeps the invariant |
| Duplicates.DetectExact | src/transit_scholar/identity/service.py:98-226 | Afterwards a pair has a relation of a type exactly when it had one or its score pins that type: an exact match with full confidence, a match called probable or a high score, or one of the two weaker bands |
| DetectionReports.DetectReports | src/transit_scholar/identity/service.py:98-208 | What detection answers and makes: refusals, the ids of exactly the pairs that are due in order, the counts, the new pending relations with their confidence, and exactly the active papers they mark |
| Duplicates.DetectTwice | src/transit_scholar/identity/service.py:157-171 | Detecting again changes nothing |
| Duplicates.DetectFromOtherEnd | src/transit_scholar/identity/service.py:88-90 | Detecting from the other paper of a pair, with the same score, adds nothing for that pair |
| Duplicates.ResolveKeeps | src/transit_scholar/identity/service.py:304-337 | Adjudication keeps the invariant |
| Duplicates.ResolveFailsExactly | src/transit_scholar/identity/service.py:307-309 | A decision fails exactly when it would make a second possible_version of the pair, and then changes nothing |
| Duplicates.ResolveConverges | src/transit_scholar/identity/service.py:332-337 | Only an endpoint with nothing left to decide changes its status |
| Duplicates.ResolveReports | src/transit_scholar/identity/service.py:270-345 | What a decision answers and makes of its relation: confirmed, confirmed as a version, rejected or ignored, and no other relation touched |
| Duplicates.HistoryInv | src/transit_scholar/identity/service.py:187-196 | In every history a paper marked duplicate_pending has a pending relation and no unordered pair has two relations of a type |
| Duplicates.RestoredForgetsPending | src/transit_scholar/identity/service.py:797-799 | A concrete history: after archive and restore a paper is active with a pending relation, and detecting again does not mark it |
| Duplicates.ConverseExact | src/transit_scholar/identity/service.py:797-799 | An operation keeps every active paper free of pending relations exactly when it does not restore a deleted or archived paper with a pending relation |
| Duplicates.HistoryConverse | src/transit_scholar/identity/service.py:797-799 | In every history active papers never have a pending relation exactly when no step was such a restore |
| Enrichment.ProviderRecord.RunOneProvider | src/transit_scholar/doi_enrichment/service.py:293-466 | One call: the stored record and the request count follow the specification on every branch |
| Enrichment.RequestsAccounted | src/transit_scholar/doi_enrichment/service.py:328-402 | Over any calls the attempt count never exceeds the budget, and requests sent equal attempts recorded plus interrupted requests plus budgets handed back by forced calls |
| Enrichment.UnforcedBudget | src/transit_scholar/doi_enrichment/service.py:353-370 | Unforced calls send at most what is left of the budget, plus one per interruption |
| Enrichment.SendsExactly | src/transit_scholar/doi_enrichment/service.py:313-390 | A call sends its one request exactly when the network is on and it is forced, or no text is cached, the schedule is due and budget is left |
| Enrichment.ClosedStays | src/transit_scholar/doi_enrichment/service.py:313-370 | While a record is cached, waiting or exhausted, unforced calls send and change nothing |
| Enrichment.StoredIsLastDelivered | src/transit_scholar/doi_enrichment/service.py:402-408 | Over any calls the stored text and its time are those of the last delivered answer, and without one those of the beginning |
| Enrichment.DeliveredCloses | src/transit_scholar/doi_enrichment/service.py:313-327 | Once an answer is delivered, unforced calls send nothing and change nothing |
| Enrichment.RecordedAnswer | src/transit_scholar/doi_enrichment/service.py:399-451 | What a recorded answer leaves: count, status and reason by the kind of answer and what is left of the budget |
| Enrichment.UnansweredCall | src/transit_scholar/doi_enrichment/service.py:309-390 | What a call leaves that records no answer |
| Enrichment.RetryNotBefore | src/transit_scholar/doi_enrichment/service.py:333-351 | No unforced call sends a request before the scheduled time |
| Enrichment.ScheduleExact | src/transit_scholar/doi_enrichment/service.py:418-439 | Only a retryable answer with budget left schedules a retry: Retry-After (section 10.2.3 of RFC 9110) as given, else 30, 120, 600 or 3600 seconds by attempt, within a tenth |
| Enrichment.LastStepUnused | src/transit_scholar/doi_enrichment/service.py:744-756 | With the configured budget of four a fallback delay is 30, 120 or 600 seconds within a tenth; the 3600 second step is never used |
| Cascade.EnrichmentJob.RunCascade | src/transit_scholar/doi_enrichment/service.py:212-290 | The loop over the clients, left by an interrupted fetch, gives the records, the job status and the requests of the specification |
| Cascade.OneRequestEach | src/transit_scholar/doi_enrichment/service.py:230-262 | One call sends each provider at most one request and steps its record at most once; without a key OpenAlex is sent nothing and only its status and error change |
| Cascade.BlockedExactly | src/transit_scholar/doi_enrichment/service.py:267-279 | The job after a call: as it was, or running when forced, after an interruption; fetched exactly when the minimum is there; blocked exactly when it is missing and every provider the call may ask was skipped, or has failed or knows nothing with no usable answer kept from before; else partial |
| Cascade.CompletedAsksEach | src/transit_scholar/doi_enrichment/service.py:230-262 | A call that was not interrupted asks every client once and leaves a keyless OpenAlex skipped for want of a key |
| Cascade.CascadeAccounted | src/transit_scholar/doi_enrichment/service.py:212-290 | Over any unforced calls, with the OpenAlex key coming and going, a provider is sent exactly the requests its record counts plus the lost ones |
| Cascade.FreshJobBudget | src/transit_scholar/doi_enrichment/service.py:212-290 | From a fresh job no provider is ever sent more than four unforced requests, lost ones aside |
| Selection.BestIsLeast | src/transit_scholar/metadata/selection.py:407-450 | The tiered filtering finds the least candidate of the order tier, provider priority, confidence, newest, id |
| Selection.OrderIsStrict | src/transit_scholar/metadata/selection.py:435-450 | That order is a strict total order on candidates with distinct ids |
| Selection.OrderOfRowsIrrelevant | src/transit_scholar/metadata/selection.py:407-450 | The choice does not depend on the order in which rows are read |
| Selection.SelectionExact | src/transit_scholar/metadata/selection.py:194-218 | In every logical field exactly the candidate better than all others is marked; other rows are untouched |
| Selection.MarkedExactly | src/transit_scholar/metadata/selection.py:407-450 | In every logical field exactly the candidate is marked that precedes all others: the user before providers before the rest, providers by the priority list of the field, then higher confidence, later, smaller id |
| Selection.OneSelected | src/transit_scholar/metadata/selection.py:194-218 | Every logical field with a candidate has exactly one marked row |
| MetadataStore.Metadata.SelectCandidates | src/transit_scholar/metadata/selection.py:194-218 | The loops over fields and rows mark rows and return the chosen candidates as specified |
| MetadataStore.Metadata.PersistCandidates | src/transit_scholar/metadata/selection.py:122-191 | The loop appends exactly the values not stored before the call |
| MetadataStore.Metadata.MaterializeSelection | src/transit_scholar/metadata/selection.py:221-285 | The paper after writing the chosen values, and exactly the fields written |
| MetadataGuarantees.PersistTwice | src/transit_scholar/metadata/selection.py:122-157 | Storing the same values again adds no row |
| MetadataGuarantees.ManualStays | src/transit_scholar/metadata/selection.py:407-413 | Once a field has a manual candidate every later selection marks exactly one row of it, a manual one |
| MetadataGuarantees.LatestEditWinsExactly | src/transit_scholar/metadata/selection.py:160-450 | At any clock reading, the value just confirmed is selected exactly when, stored before, one of its rows is later than every manual row of another value, or else its new row is later than every manual row of the field; of rows of one instant the smaller id counts as the later |
| MetadataGuarantees.HistoryCertain | src/transit_scholar/metadata/selection.py:160-191 | In every history each manual row has full confidence |
| MetadataGuarantees.SameInstantLoses | src/transit_scholar/metadata/selection.py:435-450 | Confirming A and then B within one tick of the clock leaves A selected when its id is smaller |
| MetadataGuarantees.ThirdEditLoses | src/transit_scholar/metadata/selection.py:176-180 | Confirming A, then B, then A again leaves B selected |
| MetadataGuarantees.MaterializedShowsExactly | src/transit_scholar/metadata/selection.py:221-285 | After materialization the paper shows the chosen value exactly when it can be written or was shown already |
| MetadataGuarantees.MaterializedFields | src/transit_scholar/metadata/selection.py:221-285 | The paper after materialization, field by field: a chosen value that can be written with its normalized form, and every other field as before |
| MetadataGuarantees.ImplausibleYearDiverges | src/transit_scholar/metadata/selection.py:255-266 | A selected year outside the plausible range leaves another year in the paper |
| MetadataGuarantees.AuthorsInOrder | src/transit_scholar/metadata/selection.py:299-321 | The authors become the chosen names in order, numbered from one |

## Left out

- `clean_text` and the regular expressions around it: an item carries its cleaned text.
- File formats: JSON encoding and decoding of artifacts, including the line splitting when blocks are
  read back, and formatted ids. Ids are counter values and stored files are values.
- `MarkdownRenderer`: a rendered file is a term over the blocks, sections, run and renderer version it
  depends on. The line map is not computed.
- `build_retrieval`, parser adapters and PDF reading: adapters results and page heights are inputs. A
  retrieval index is not part of a run's files.
- Figure image files and `content.asset_path`; other payload keys than markdown, latex and cell rows.
- The degraded quality signals of validation: whether one fires is an input.
- Blocks are values. The source shares one block object between normalizer lists; no aliasing remains
  after normalization.
- Floating point: font sizes, box coordinates, ratios, delays and confidences are real numbers.
- Hashes: the parser chain stands for its hash, so distinct chains never collide.
- Normalizers of titles, DOIs, arXiv ids, years and names: uninterpreted functions in `MetadataStore`.
- The layer3 runtime: any commit it may make while a run is running is a nondeterministic step. Its own
  handling of exceptions after a terminal commit is not modelled.
- `LocalExecutionManager`: reservations, futures and the single worker slot; the model keeps the set of
  runs this process executes.
- SQLAlchemy: a transaction is atomic, ids handed out are fresh, and queries without an order are read
  in any order. Timestamps of turns are not modelled.
- The file system: a move and the writing of one file are atomic and directories always exist. In the
  source only current.json is replaced atomically; a torn artifact is not modelled.
- `score_paper_pair`: scores are inputs, one per pair.
- `_record_doi_mismatches` and the merge for papers without a primary file. Whether the minimum fields
  are there after the merge is an input of `Cascade`.
- Metadata extraction's `_mark_selected`: a heuristic row may arrive with any mark.
- Citation, Layer3 research logic, user interfaces, HTTP interfaces, launchers and migrations.
- Research.ResearchService.SyncLinkedTurn: assumes at most one turn per run, which
  ResearchLifecycle.LinkUnique proves of every reachable state.
- SoftDelete.PaperLibrary.SoftDeletePaper: all marks of one call carry one time stamp, while the source
  reads the clock once per row.
- MetadataGuarantees.ManualStays: covers histories in which candidate rows are only added; deleting a
  paper file removes its candidates in the source.
