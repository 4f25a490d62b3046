# LiquidCache, verified

This project models the parts of LiquidCache whose correctness is not obvious from
reading one function, and proves what they promise. `dafny verify dfyconfig.toml`
checks everything.

| file | component |
|---|---|
| `LineageLanguage`, `LineageAnalysis`, `AnnotationExact`, `QueryAnnotations` | the lineage optimizer: logical plans with an evaluator, the analysis, and which columns it annotates |
| `Noninterference`, `NoninterferenceExact` | what a date annotation promises |
| `BitSelection`, `AndThenPdep` | row selections: their algebra, the bit-by-bit and the PDEP implementation |
| `Common` | an option type and facts about sequences and remainders |
| `MapSums`, `CacheEntries`, `CacheLedger`, `SqueezeRounds`, `CacheStore`, `CacheRuns` | the cache store as a refinement of a plain map, its byte accounting, concurrent squeezing and termination |
| `VictimPolicies`, `DefaultInsertion`, `LruInsertion` | the default and the LRU replacement policy, and when insertion with them ends |
| `BudgetProtocol` | the memory budget under concurrency |
| `LruSimulator`, `LruHits`, `ClockSimulator`, `ClockHistory` | the replacement simulators |
| `Fingerprint`, `BucketMass`, `LongestFirst`, `BucketBalance` | string fingerprints and the balanced byte-to-bucket map |
| `Pushdown` | the client's plan rewrite |
| `PlanRegistration` | the one-time plan registration protocol between client partitions and server |
| `CompressorTraining` | the double-checked lock around compressor training |
| `BatchCoalescing` | merging of small result batches |

Components that change state in the source are classes with a ghost or pure
abstract state, and their methods are proved against it; pure code is functions and
lemmas; concurrent protocols are state machines over their atomic steps, with
theorems over all runs.

## What the proofs found

- A date column may be annotated although the raw dates reach the output: a filter
  with no projection above it records only the extraction. The annotation is
  harmless exactly when no output column is the raw column or the annotated
  components determine the date, as year, month and day together do
  (`NoninterferenceExactly`, for plans that can return a row).
- Insertion terminates with the default policy (`QueuedCache.InsertInner`). The LRU
  policy also advises entries that are on disk already; with it the insertion loop
  ends if and only if the batch is within the budget or nothing tracked is cached
  (`LruEndsExactly`).
- `used + request` wraps for requests near 2^64, a size no array has
  (`ReserveExactly`, `HugeRequestIsGranted`).
- LRU inclusion fails exactly when an item is admitted by the larger budget alone
  and another by both (`InclusionExactly`). A larger budget may then hit less, and
  does on some trace exactly when such items can crowd out items that both budgets
  admit (`HitsGrowExactly`).
- A client node rebuilt with other children keeps its handle; a stream may then run
  the plan of the other node (`OwnPlansExactly`).
- The unchecked loads of the PDEP form leave the bytes of a right mask of 1 to 15
  bytes (`ReadsStayInsideExactly`); Arrow's allocation padding is what makes them
  readable.
- The comment on `write_in_memory_batch_to_disk` says that the returned batch was
  written to disk; an Arrow batch may instead come back as an in-memory Liquid batch
  and take another round. The model follows the code.
- The comment on `squeeze_victims` says that victims are squeezed sequentially; the
  code runs them concurrently within one task. The model follows the code.

## Model

| member | source | states |
|---|---|---|
| `Noninterference.DateNoninterference` | src/parquet/src/optimizers/lineage_opt.rs:258-350 | Main theorem. In every well-resolved plan of scans, projections, filters, inner joins, aggregates, aliases, sorts and limits whose outputs leave through a projection or aggregate: if the pass annotates a column with a set of date components, two databases that differ only in that column, row by row equal in these components, give equal answers, for every meaning of functions, aggregates and comparisons. `date_part` is a library function of the name of the part; that the three spellings of the day of the week and the parsed interval units stand for their components is the only thing assumed of it. |
| `Noninterference.AnnotationSound` | src/parquet/src/optimizers/lineage_opt.rs:258-461 | For any resolved plan and an annotated column: both runs return equally many rows, and each output value is equal unless its column is still the raw column, where it agrees in the annotated components. |
| `Noninterference.PlanAgrees` | src/parquet/src/optimizers/lineage_opt.rs:258-461 | The relational invariant of the analysis, by induction over plans: usages recorded only through annotated components imply row-by-row agreement of the two runs under the output lineage map. |
| `Noninterference.ExprRelated` | src/parquet/src/optimizers/lineage_opt.rs:891-995 | The same for expressions: with admissible lineage, the values in two agreeing rows are equal, or the expression is the raw column and they agree in the annotated components. |
| `Noninterference.AnnotatedIsThrough` | src/parquet/src/optimizers/lineage_opt.rs:557-599 | A column that gets an annotation was recorded only in usages that begin with an extraction of an annotated component. |
| `Noninterference.OutputNothingBare` | src/parquet/src/optimizers/lineage_opt.rs:300-417 | When outputs leave through projections or aggregates and all recorded usages are extractions, no output column is the raw column. |
| `Noninterference.AgreedAnswersEqual` | src/parquet/src/optimizers/lineage_opt.rs:258-461 | Equal answers whenever no output column of the annotated plan is the raw column. |
| `Noninterference.UnprojectedFilterLeaks` | src/parquet/src/optimizers/lineage_opt.rs:312-318 | Counterexample: a comparison of the year with 2020 as filter, with no projection above it, annotates the date with YEAR alone, yet two dates of one year give different answers. |
| `NoninterferenceExact.NoninterferenceExactly` | src/parquet/src/optimizers/lineage_opt.rs:258-461 | The exact condition, for any given date library and set of values that the column may hold: an annotated plan that can return a row (on tables of equal rows) answers alike on all databases that agree up to the annotated components, whatever functions, aggregates and comparisons compute, if and only if no output column is the raw column or the annotated components determine the value. |
| `NoninterferenceExact.RawOutputIsSensitive` | src/parquet/src/optimizers/lineage_opt.rs:258-461 | Two values with equal annotated components that a raw output column tells apart, on concrete databases and with the given date library. |
| `NoninterferenceExact.DeterminedIsSame` | src/parquet/src/optimizers/lineage_opt.rs:557-599 | Databases that agree in components which determine the value are equal. |
| `NoninterferenceExact.ApartCanYield` | src/parquet/src/optimizers/lineage_opt.rs:449-461 | A plan can return a row if no OFFSET has the value of a LIMIT; so every plan without OFFSET and every plan without LIMIT can. |
| `NoninterferenceExact.OffsetPastLimitIsEmpty` | src/parquet/src/optimizers/lineage_opt.rs:449-461 | The premise matters: OFFSET over a LIMIT of the same value never returns a row, whatever the input. |
| `NoninterferenceExact.RowsSurvive` | src/parquet/src/optimizers/lineage_opt.rs:258-461 | Under libraries that accept every row, n equal stored rows per table stay equal through every plan node, their number is as computed from joins, groups, OFFSET and LIMIT, and raw columns hold the stored date. |
| `LineageAnalysis.LineageAnalyzer.AnalyzePlan` | src/parquet/src/optimizers/lineage_opt.rs:258-461 | The mutating analyzer fails exactly when the analysis does, returns its output lineage, and adds exactly the analysed usages to the statistics, in order. |
| `LineageAnalysis.LineageAnalyzer.AnalyzeJoin` | src/parquet/src/optimizers/lineage_opt.rs:352-400 | A join records both inputs, then the alternating sides of its conditions, then its filter over the merged lineage, and maps output columns by position. |
| `LineageAnalysis.LineageAnalyzer.RecordExprs` | src/parquet/src/optimizers/lineage_opt.rs:283-350 | Lineage of each expression in order, all of it recorded, or an error if one has none. |
| `LineageAnalysis.LineageAnalyzer.RecordOn` | src/parquet/src/optimizers/lineage_opt.rs:358-363 | The usages of the join conditions, left side before right side, recorded in that order. |
| `LineageAnalysis.LineageAnalyzer.Record` | src/parquet/src/optimizers/lineage_opt.rs:537-545 | The statistics after recording a list of usages. |
| `LineageAnalysis.RecordedIsKept` | src/parquet/src/optimizers/lineage_opt.rs:537-545 | Every recorded usage is found again under its base column. |
| `LineageAnalysis.RecordAllAppend` | src/parquet/src/optimizers/lineage_opt.rs:537-545 | Recording two lists one after the other is recording their concatenation. |
| `LineageAnalysis.CollectLeading` | src/parquet/src/optimizers/lineage_opt.rs:565-578 | The units of the leading run of extractions of one usage. |
| `LineageAnalysis.ColumnDateUnits` | src/parquet/src/optimizers/lineage_opt.rs:560-596 | A column gets the union of its leading units exactly when it is a date or timestamp, was used, and every usage starts with an extraction. |
| `LineageAnalysis.FindDate32Extractions` | src/parquet/src/optimizers/lineage_opt.rs:557-599 | Every annotated column is reported exactly once with its units, and nothing else is. |
| `LineageAnalysis.DateFindings` | src/parquet/src/optimizers/lineage_opt.rs:258-281 | The pass from plan to findings: it fails exactly when the analysis does, and its findings are exactly the annotations the noninterference theorem speaks of. |
| `QueryAnnotations.AnnotatedExactly` | src/parquet/src/optimizers/lineage_opt.rs:258-599 | Which columns are annotated, told from the query: every expression of the plan is read with its columns replaced by what they were computed from, through projections, aliases, aggregates and joins, down to the tables. A column is annotated if and only if it is a date or timestamp, some expression mentions it, and none uses it but directly under a `date_part` whose name stands for a component; the annotation holds exactly the components that expressions extract from it. |
| `QueryAnnotations.FindingsExactly` | src/parquet/src/optimizers/lineage_opt.rs:557-599 | The same of the list of findings that the pass answers. |
| `QueryAnnotations.PlanTells` | src/parquet/src/optimizers/lineage_opt.rs:258-461 | Over every plan: what the output lineage and the recorded usages say of a column is what the expressions, read down to the tables, say. |
| `QueryAnnotations.ExprShows` | src/parquet/src/optimizers/lineage_opt.rs:891-995 | An expression’s usages of a column are its occurrences: raw, extracted, under which components, or otherwise used. |
| `QueryAnnotations.ShowsOperands` | src/parquet/src/optimizers/lineage_opt.rs:891-995 | How an expression uses a column follows from how its operands do and from the component that it extracts, if any. |
| `AnnotationExact.AnnotationFromUsages` | src/parquet/src/optimizers/lineage_opt.rs:557-599 | A column is annotated if and only if its first recorded usage has date or timestamp type and each of its recorded usages begins with an extraction; the annotation holds exactly the units of the leading extractions. |
| `AnnotationExact.DayOfWeekQuery` | src/parquet/src/optimizers/lineage_opt.rs:1038-1063 | Selecting `date_part` by any of the three spellings of the day of the week, in any case, annotates the column with the day of the week and nothing else. |
| `BitSelection.FilterAndThen` | src/parquet/src/utils.rs:47-83 | Filtering by the refined mask is filtering by the first mask and then by the second. |
| `BitSelection.AndThenAssociative` | src/parquet/src/utils.rs:47-83 | Refinement of selections is associative. |
| `BitSelection.CountAndThen` | src/parquet/src/utils.rs:47-83 | The refined mask has as many set bits as the second mask. |
| `BitSelection.AndThenCharacterised` | src/parquet/src/utils.rs:17-45 | A mask is the refined selection if each position is set exactly when the first mask is set there and the second mask is set at the rank of that position. |
| `BitSelection.FilterLength` | src/parquet/src/utils.rs:17-45 | Filtering keeps as many elements as the mask has set bits. |
| `BitSelection.FilterAt` | src/storage/src/cache/core.rs:510-520 | The i-th element, if selected, stands in the filtered sequence at the number of selected positions before i; with the length this fixes every element. |
| `AndThenPdep.Fallback` | src/parquet/src/utils.rs:17-45 | Clearing bits one set position at a time yields the refined selection. |
| `AndThenPdep.Bmi2` | src/parquet/src/utils.rs:104-236 | The PDEP form yields the same refined selection for every left and right of any length with popcount(left) = len(right), whatever the bytes behind right contain, as long as its unchecked loads are readable. |
| `AndThenPdep.RefineWord` | src/parquet/src/utils.rs:124-171 | One round: gathers the bits of right that belong to the set bits of a word, deposits them, stores the result and advances by the popcount; bits elsewhere are untouched and each stored bit is right. |
| `AndThenPdep.GatherRight` | src/parquet/src/utils.rs:132-160 | The gathered word holds the next bits of right in order and zeros above, across byte boundaries, on the unchecked and on the zero-padded path. |
| `AndThenPdep.LoadU64ZeroPadded` | src/parquet/src/utils.rs:87-100 | Reads eight bytes, with zeros for those past the end. |
| `AndThenPdep.LeftTail` | src/parquet/src/utils.rs:173-190 | The last partial word of left, with the bits past the logical length cleared. |
| `AndThenPdep.PdepBit` | src/parquet/src/utils.rs:162-168 | A deposited bit is the refined selection at its position. |
| `AndThenPdep.LowMask` | src/parquet/src/utils.rs:159-160 | Shifting one to position n, without wrapping, and decrementing gives the mask of the low n bits, also for n = 64. |
| `AndThenPdep.BooleanBufferAndThen` | src/parquet/src/utils.rs:62-83 | With or without BMI2, and on the full-selection shortcut, the answer is the refined selection with the popcount of right; only the PDEP path needs its loads to be readable. |
| `AndThenPdep.ReadsStayInsideExactly` | src/parquet/src/utils.rs:139-157 | The unchecked 8-byte loads stay inside the bytes of right for every left if and only if right is empty or has at least 16 bytes. |
| `AndThenPdep.SixteenBytesSuffice` | src/parquet/src/utils.rs:139-157 | With 16 readable bytes behind a shorter right, no load leaves the allocation. |
| `AndThenPdep.RowSelectorToBooleanBuffer` | src/parquet/src/utils.rs:238-248 | The mask has the summed length and popcount of the selectors, and each selector covers the interval behind all earlier ones. |
| `CacheRuns.Drive` | src/storage/src/cache/core.rs:226-393 | Main theorem. Every sequence of insertions, reads, Liquid reads, predicate evaluations, flushes and resets, under any victim choices that meet the contract of `FindVictim`, any entry sizes, budget and squeeze or hydration policy, is answered as a plain map from id to rows would answer it (any squeeze hint, any hydration decision at any read), and the accounting holds throughout. |
| `CacheRuns.Perform` | src/storage/src/cache/core.rs:226-393 | One operation is answered as the plain map allows and changes the contents as the map operation does. |
| `CacheRuns.ViewIsLastInsert` | src/storage/src/cache/core.rs:311-337 | The plain map holds the last array inserted for an id since the last reset. |
| `CacheRuns.GetAnswersLastInsert` | src/storage/src/cache/core.rs:494-533 | In every run from an empty cache, an unselected read returns the last array inserted for that id, however often it moved between memory and disk. |
| `CacheRuns.GetAnswersSelectedRows` | src/storage/src/cache/core.rs:494-533 | A read with a selection answers one row per selected position, and row j of the last inserted array stands where the number of selected positions before j says; it answers nothing exactly when nothing was inserted since the last reset. |
| `CacheRuns.PredicateAnswersRows` | src/parquet/src/cache/column.rs:124-161 | A predicate evaluation in a run answers one bit per selected row of the last inserted array; the bit of row j is set exactly when the predicate is true there, neither false nor unknown. |
| `CacheStore.LiquidCache.Insert` | src/storage/src/cache/builders.rs:166-178 | Terminates and leaves the contents with the rows under the id and all else unchanged. |
| `CacheStore.LiquidCache.InsertInner` | src/storage/src/cache/core.rs:311-337 | For an Arrow, Liquid or squeezed batch the retry loop terminates, by the sum of index ranks plus the pending rank and then the stale advice left, and the pending batch ends up under its id. |
| `CacheStore.LiquidCache.MakeRoom` | src/storage/src/cache/core.rs:321-335 | After a refusal the rank sum drops or a stale piece of advice is used up, and the pending rows are kept. |
| `CacheStore.LiquidCache.TryInsert` | src/storage/src/cache/core.rs:362-393 | Refuses exactly when the entry is not on disk and its size plus the sizes of the other entries that are not on disk exceeds the maximum, and then changes nothing; otherwise inserts and keeps accounting and all other entries. |
| `CacheStore.LiquidCache.TryCharge` | src/storage/src/cache/core.rs:362-393 | Budget and index move together as one ledger step, granted exactly when the entry is on disk or fits beside the sizes of the other resident entries; refusal changes nothing. |
| `CacheStore.LiquidCache.TryReserveMemory` | src/storage/src/cache/budget.rs:26-41 | Grants a request exactly when it stays within the maximum. |
| `CacheStore.LiquidCache.TryUpdateMemoryUsage` | src/storage/src/cache/budget.rs:45-59 | Shrinking always succeeds, growing exactly within the maximum; the counter moves by the difference. |
| `CacheStore.LiquidCache.IndexInsert` | src/storage/src/cache/index.rs:43-52 | The entry counter stays the number of keys. |
| `CacheStore.LiquidCache.SqueezeStep` | src/storage/src/cache/core.rs:423-458 | One uninterrupted piece of squeezing a victim (look up, squeeze and write, or offer to the index) keeps every entry readable with its rows, touches only the victim, and comes nearer to the end. |
| `CacheStore.LiquidCache.SqueezeVictims` | src/storage/src/cache/core.rs:411-421 | The victims are squeezed concurrently, interleaved in any way at their await points: the round ends, every cached victim is lowered (a disk entry is as it was), nothing else changes, all rows are kept, and the policy is told of every cached victim exactly once. |
| `CacheStore.LiquidCache.RunTasks` | src/storage/src/cache/core.rs:411-458 | Any schedule of the squeezing tasks ends. |
| `SqueezeRounds.RoundStep` | src/storage/src/cache/core.rs:411-458 | One step of one task keeps what all other tasks rely on. |
| `SqueezeRounds.RoundLowersRank` | src/storage/src/cache/core.rs:411-458 | A round never raises the rank sum, and lowers it if a victim was resident. |
| `SqueezeRounds.BackingKept` | src/storage/src/cache/core.rs:423-458 | A round never overwrites the file behind an entry that has its bytes on disk, so a squeezed batch pending beside it keeps its backing. |
| `CacheStore.LiquidCache.WriteInMemoryBatchToDisk` | src/storage/src/cache/core.rs:265-308 | All three kinds of batches: the result stands for the same rows at a lower rank; no other entry is affected. |
| `CacheStore.LiquidCache.WriteBatchToDisk` | src/storage/src/cache/core.rs:689-699 | Overwrites one file; every other entry still reads as before. |
| `CacheStore.LiquidCache.MaybeHydrate` | src/storage/src/cache/core.rs:468-492 | Whatever a hydration policy decides at a read, to keep, or to promote to an Arrow, Liquid or squeezed form, it changes representations only. |
| `CacheStore.LiquidCache.ReadArrowArray` | src/storage/src/cache/core.rs:494-533 | All five representations answer the selected rows of the id, or nothing if it is not cached. |
| `CacheStore.LiquidCache.ReadDiskArray` | src/storage/src/cache/core.rs:535-586 | Disk reads, with the shortcut for an empty selection, answer the selected rows. |
| `CacheStore.LiquidCache.TryReadLiquid` | src/storage/src/cache/core.rs:144-171 | Answers exactly for entries with a Liquid form, and then the inserted rows. |
| `CacheStore.LiquidCache.FlushAllToDisk` | src/storage/src/cache/core.rs:226-260 | Afterwards every entry is on disk, no memory is in use and the contents are unchanged. |
| `CacheStore.LiquidCache.Reset` | src/storage/src/cache/core.rs:181-184 | Empties contents, counter and budget, as one ledger step; the replacement policy is not told. |
| `CacheStore.LiquidCache.EvalPredicateInternal` | src/storage/src/cache/core.rs:735-832 | For all five representations: either the finished mask of the predicate over the selected rows, or exactly those rows still to be evaluated. |
| `CacheStore.LiquidCache.EvalPredicateWithFilter` | src/parquet/src/cache/column.rs:124-161 | Whatever the representation: one bit per selected row, set exactly when the predicate is true of that row. |
| `CacheEntries.SqueezedPreserves` | src/storage/src/cache/policies/squeeze.rs:37-183 | A squeeze step preserves the rows behind an entry and strictly lowers the rank of every resident entry. |
| `CacheEntries.Squeeze` | src/storage/src/cache/policies/squeeze.rs:37-183 | Each of the three policies takes such a step. |
| `CacheEntries.MemoryTotalUpdate` | src/storage/src/cache/cached_batch.rs:52-59 | With an entry put in, the memory total is the sizes of the other entries that are not on disk, plus its own size unless it is on disk. |
| `CacheEntries.UsageIsResidentSize` | src/storage/src/cache/cached_batch.rs:52-59 | The reported memory usages add up to the sizes of the entries that are not on disk. |
| `CacheLedger.AccountedAlways` | src/storage/src/cache/core.rs:362-393 | Over every interleaving of ledger steps (insertions, squeezes, hydrations, flushes, resets of any tasks) the counter is the sum over the index, within the maximum, and zero-byte entries are granted. |
| `CacheLedger.RefusedExactly` | src/storage/src/cache/budget.rs:26-59 | A request is refused exactly when granting it would exceed the maximum. |
| `VictimPolicies.LiquidPolicy.FindVictim` | src/storage/src/cache/policies/cache/three_queue.rs:158-186 | Pops the requested number of ids, or all in memory: Arrow before Liquid before squeezed, first in first out within each, and never a disk entry; map and queues stay consistent. |
| `VictimPolicies.LiquidPolicy.NotifyInsert` | src/storage/src/cache/policies/cache/three_queue.rs:59-78 | Unlinking from the one queue that the map names leaves every known id queued exactly once, the id last in the queue of its representation (Arrow, Liquid, squeezed or, for both disk forms, disk), absent from the others, and the order of the others kept. |
| `VictimPolicies.LiquidPolicy.PopFront` | src/storage/src/cache/policies/cache/three_queue.rs:80-99 | Pops and forgets the head of a queue; every other id stays where the map says. |
| `VictimPolicies.MovedConsistent` | src/storage/src/cache/policies/cache/three_queue.rs:59-78 | Moving an id keeps the invariant that each id is queued exactly once, in the queue the map names. |
| `DefaultInsertion.QueuedCache.InsertInner` | src/storage/src/cache/core.rs:311-337 | With the default policy insertion terminates, whatever the batch, the budget and the history of the cache, resets included. |
| `DefaultInsertion.QueuedCache.MakeRoom` | src/storage/src/cache/core.rs:321-335 | A round with the default policy lowers the rank sum or uses up a stale id. |
| `DefaultInsertion.LiquidPolicyAdvice` | src/storage/src/cache/policies/cache/three_queue.rs:158-186 | Advice is empty, names a resident entry, or uses up a stale id. |
| `DefaultInsertion.NotifyAddsNoStale` | src/storage/src/cache/policies/cache/three_queue.rs:146-156 | Insertion never adds a stale id. |
| `DefaultInsertion.NotifyTracks` | src/storage/src/cache/policies/cache/three_queue.rs:146-156 | Without resets the queues describe the index: each id is in the queue of its entry’s representation and in no other. |
| `DefaultInsertion.FiledAdvice` | src/storage/src/cache/policies/cache/three_queue.rs:158-186 | Then empty advice means that no entry is in memory: the ids that may be advised are exactly the resident ones. |
| `LruInsertion.LruEndsExactly` | src/storage/src/cache/core.rs:311-337 | With the LRU policy the insertion loop has no infinite run if and only if the batch is within the budget or nothing that the policy tracks is cached. |
| `LruInsertion.LruEndsWithoutResets` | src/storage/src/cache/core.rs:311-337 | When the list holds exactly the cached ids: if and only if the batch is within the budget or the list is empty. |
| `LruInsertion.StepProgress` | src/storage/src/cache/core.rs:311-337 | While the loop can end, every round lowers the rank sum, or shortens the list, or brings the coldest resident entry nearer to the cold end. |
| `LruInsertion.LruLivelock` | src/storage/src/cache/policies/cache/lru.rs:86-135 | In every run from a state with a batch over the budget and something tracked in the cache, the batch is refused in every round, whatever squeezing does. |
| `LruInsertion.ReachLivelock` | src/storage/src/cache/core.rs:311-337 | A concrete run from an empty cache of ten bytes that reaches such a state. |
| `LruInsertion.LruBackedCache.InsertInner` | src/storage/src/cache/core.rs:311-337 | The loop itself, with the LRU policy, terminates under that condition and inserts the batch. |
| `LruInsertion.LruBackedCache.Round` | src/storage/src/cache/core.rs:321-335 | One round of the code is one step of the transition system that the exact theorem is about. |
| `LruInsertion.LruPolicy.FindVictim` | src/storage/src/cache/policies/cache/lru.rs:86-109 | Pops from the cold end, coldest first. |
| `LruInsertion.LruPolicy.NotifyInsert` | src/storage/src/cache/policies/cache/lru.rs:118-135 | The id is in front, and the order of the others is kept. |
| `BudgetProtocol.BudgetIsSafe` | src/storage/src/cache/budget.rs:26-59 | For any number of threads and any interleaving of load, compare-exchange, fetch-sub and reset, the counter equals the sum of held reservations and stays within the maximum. |
| `BudgetProtocol.InvStep` | src/storage/src/cache/budget.rs:19-59 | Every atomic step keeps that invariant. |
| `BudgetProtocol.FailedExchangeIsExcused` | src/storage/src/cache/budget.rs:32-40 | An exchange fails only if another thread changed the counter between this thread’s load and its exchange. |
| `BudgetProtocol.RequestEndsExactly` | src/storage/src/cache/budget.rs:26-41 | In every run, a request that is no longer worked on was granted in full by an exchange of its thread, or a load of its thread saw that it does not fit: a lost race never ends it. |
| `BudgetProtocol.ReserveExactly` | src/storage/src/cache/budget.rs:26-31 | With wrapping 64-bit addition, a granted reservation keeps counter and holdings in step if and only if the sum does not wrap. |
| `BudgetProtocol.HugeRequestIsGranted` | src/storage/src/cache/budget.rs:26-31 | A concrete request of nearly 2^64 bytes, far beyond any array in memory, that wraps and is granted. |
| `LruSimulator.LruInclusion` | src/parquet/bench/eviction_cache.rs:27-51 | For every trace with a fixed size per id, each admitted by both budgets or by neither, the smaller cache is a prefix of the larger one, and hits never drop as the budget grows. |
| `LruSimulator.InclusionExactly` | src/parquet/bench/eviction_cache.rs:27-51 | The prefix relation holds on all traces if and only if no item is admitted by the larger budget alone while another is admitted by both. |
| `LruSimulator.AccessKeepsInclusion` | src/parquet/bench/eviction_cache.rs:27-51 | One access keeps the prefix relation, and a hit in the smaller cache is a hit in the larger. |
| `LruHits.HitsGrowExactly` | src/parquet/bench/eviction_cache.rs:27-51 | Hits never drop as the budget grows, on all traces, if and only if no items within the smaller budget exceed the larger one together with items that only the larger one admits. |
| `LruHits.NoCrowdKeepsHits` | src/parquet/bench/eviction_cache.rs:27-51 | Without such items the smaller cache always leads the list of the items of the larger cache that both budgets admit. |
| `LruHits.CrowdCostsHits` | src/parquet/bench/eviction_cache.rs:27-51 | With them, a trace on which the larger budget hits less. |
| `LruHits.RoomForLead` | src/parquet/bench/eviction_cache.rs:39-46 | Without them, making room in the larger cache spares the leading items. |
| `LruSimulator.OversizedItemCostsHits` | src/parquet/bench/eviction_cache.rs:35-38 | The smallest such trace. |
| `LruSimulator.LruCache.Get` | src/parquet/bench/eviction_cache.rs:27-51 | Terminates; distinct ids, size accounting within the budget, the recency list and both counters as specified. |
| `LruSimulator.LruCache.EvictLoop` | src/parquet/bench/eviction_cache.rs:39-46 | Pops from the cold end exactly until the newcomer fits. |
| `LruSimulator.EvictKeepsLongest` | src/parquet/bench/eviction_cache.rs:39-46 | What eviction keeps contains every fitting prefix. |
| `LruSimulator.Replay` | src/parquet/bench/eviction_cache.rs:27-55 | The counters after a whole trace are the specified hits and the trace length. |
| `ClockSimulator.ClockCache.Get` | src/parquet/bench/eviction_cache.rs:87-146 | Hand in range, distinct ids, size accounting within capacity; read from the hand around, the vector behaves as a second-chance queue. |
| `ClockHistory.StateFromHistory` | src/parquet/bench/eviction_cache.rs:87-146 | After every trace: the cached ids are those that came in and did not leave, an entry carries its mark exactly when it was inserted or accessed since the hand last passed it, and the hand comes by in the order in which it last passed the entries or they came in. |
| `ClockHistory.RecentLeaveLast` | src/parquet/bench/eviction_cache.rs:87-146 | Second chance, from the requests alone: when a request makes an id leave that was inserted or accessed since the hand last passed it, every id that was not is gone too. |
| `ClockHistory.RequestEvents` | src/parquet/bench/eviction_cache.rs:87-146 | A request for a present id is an access and moves nothing; one that can never fit does nothing; any other comes in after turns of the hand, and nothing else is accessed or inserted. |
| `ClockHistory.Replay` | src/parquet/bench/eviction_cache.rs:87-146 | Replaying a trace counts every request, and a hit exactly for those whose id had come in and not left. |
| `ClockSimulator.ClockCache.EvictLoop` | src/parquet/bench/eviction_cache.rs:103-126 | Terminates, by entries plus set bits, and evicts as the queue does. |
| `ClockSimulator.ClockCache.InsertAtHand` | src/parquet/bench/eviction_cache.rs:128-144 | The newcomer is the last that the hand will visit. |
| `ClockSimulator.TurnsExactly` | src/parquet/bench/eviction_cache.rs:103-126 | The queue after any number of turns of the hand: the first round drops the unmarked and clears the marked entries, after it they leave in order. |
| `ClockSimulator.SecondChance` | src/parquet/bench/eviction_cache.rs:103-126 | Once the k-th entry that was marked at the start is gone, the hand has been all round, every unmarked and every earlier marked entry is gone, and all that remain have lost their marks. |
| `ClockSimulator.EvictFollowsOrder` | src/parquet/bench/eviction_cache.rs:103-126 | What an eviction removes is the shortest prefix that makes room of: the unmarked entries, then the marked ones, each in queue order. |
| `ClockSimulator.EvictIsTurns` | src/parquet/bench/eviction_cache.rs:103-126 | Eviction turns the hand until the rest fits and not once more. |
| `ClockSimulator.EvictSubset` | src/parquet/bench/eviction_cache.rs:103-126 | Eviction invents and duplicates no entry. |
| `Fingerprint.EvalIter` | src/storage/study/string-fingerprint.rs:608-665 | Filtering first loses no match: actual_present is the full-scan count, filtered_out the values whose buckets miss the pattern’s, and nulls + filtered_out + candidates = rows. |
| `Fingerprint.MightContainExactly` | src/storage/study/string-fingerprint.rs:31-36 | The four-word test is exactly inclusion of the pattern’s bucket set in the value’s. |
| `Fingerprint.ContainsExactly` | src/storage/study/string-fingerprint.rs:627-630 | A value holds a pattern exactly when it is the pattern with something before and something after. |
| `Fingerprint.ContainedPasses` | src/storage/study/string-fingerprint.rs:18-37 | No false negatives, for any byte-to-bucket map. |
| `Fingerprint.FromBytes` | src/storage/study/string-fingerprint.rs:20-28 | Bit k of the fingerprint is set exactly when some byte maps to bucket k. |
| `Fingerprint.CoarserFiltersLess` | src/storage/study/string-fingerprint.rs:39-43 | A map that merges buckets of another map filters out no value that the other keeps. |
| `Fingerprint.RoundRobinRefines` | src/storage/study/string-fingerprint.rs:46-56 | Multiplying the number of round-robin buckets never filters fewer values. |
| `BucketBalance.OptimizedMappingTable` | src/storage/study/string-fingerprint.rs:437-491 | In range; masses sum to the histogram; without pattern bytes every bucket is within 4/3 - 1/(3n) of the fullest bucket of any table; any two buckets differ by at most the largest frequency; pattern bytes have separate buckets when they fit and use every bucket otherwise; no other byte would meet a lower mass in another bucket. |
| `BucketBalance.NearOptimal` | src/storage/study/string-fingerprint.rs:437-491 | With pattern bytes too, the fullest bucket is at most 2 - 1/n times the fullest bucket of any other table with n buckets. |
| `LongestFirst.PlaceKeepsFourThirds` | src/storage/study/string-fingerprint.rs:471-488 | Placing the next lighter byte in a least loaded bucket keeps every load within 4/3 - 1/(3n) of the fullest bucket of any table. |
| `LongestFirst.HeavyByteFits` | src/storage/study/string-fingerprint.rs:471-488 | A byte heavier than a third of the best possible fullest bucket still fits under it. |
| `BucketBalance.LoadNearAverage` | src/storage/study/string-fingerprint.rs:482-488 | A bucket holds at most the average plus (n-1)/n of the largest frequency. |
| `BucketBalance.PatternPhase` | src/storage/study/string-fingerprint.rs:446-469 | The pattern phase places exactly the pattern bytes, keeps loads equal to masses, balanced, and separate while buckets last. |
| `BucketBalance.PatternBucket` | src/storage/study/string-fingerprint.rs:458-463 | An unused bucket while there is one; either way none carries less. |
| `BucketBalance.GreedyPhase` | src/storage/study/string-fingerprint.rs:471-488 | Places every remaining byte, keeps earlier placements and balance, and leaves no byte better off elsewhere. |
| `BucketBalance.PlaceKeepsSettled` | src/storage/study/string-fingerprint.rs:471-488 | Placing the next byte of a descending order in a least loaded bucket leaves no earlier byte better off elsewhere. |
| `BucketBalance.Remaining` | src/storage/study/string-fingerprint.rs:471-480 | The unassigned bytes, each once, by descending frequency and then ascending byte. |
| `BucketBalance.MinLoadBucketFrom` | src/storage/study/string-fingerprint.rs:494-509 | A least loaded bucket, and of these the one met first going up from the cursor and round. |
| `BucketBalance.MinLoadBucketExcluding` | src/storage/study/string-fingerprint.rs:512-539 | The same over the buckets not excluded. |
| `Pushdown.Optimize` | src/client/src/optimizer.rs:142-148 | Erasing the client nodes of the answer gives the plan back. For a plan without client nodes each client node of the answer wraps a source, a repartitioned source, a partial aggregate without grouping over a source or over a repartitioned source, and nothing else; no node outside them heads such work; and the answer is the only plan of which this holds. |
| `Pushdown.PushableExactly` | src/client/src/optimizer.rs:97-129 | The tests of the search accept exactly these four shapes. |
| `Pushdown.RewriteIsUnique` | src/client/src/optimizer.rs:40-80 | The rewrite of a plan is the only plan that erases to it, wraps only these four shapes, never nests client nodes and leaves none of them outside. |
| `Pushdown.RewriteWellWrapped` | src/client/src/optimizer.rs:40-139 | The rewrite of a plan without client nodes has these properties. |
| `Pushdown.RewriteErases` | src/client/src/optimizer.rs:40-80 | Erasing client nodes from the result gives the erased input, so the input itself if it had none. |
| `Pushdown.OneClientPerSource` | src/client/src/optimizer.rs:40-80 | Each source lies under exactly one client node, and the sources keep their order. |
| `Pushdown.RewriteIdempotent` | src/client/src/optimizer.rs:40-80 | Rewriting twice changes nothing more, with or without client nodes in the input. |
| `Pushdown.OptimizePlan` | src/client/src/optimizer.rs:40-80 | The recursive method with its changed flag computes the rewrite and hands back the same plan only if nothing changed. |
| `Pushdown.FindPushdownCandidate` | src/client/src/optimizer.rs:84-139 | The search finds a candidate exactly when some source lies outside the client nodes, and then the first highest of the four shapes. |
| `Pushdown.CandidateExactly` | src/client/src/optimizer.rs:84-139 | A candidate is found exactly when some source lies outside the client nodes; it is one of the four shapes, nothing above it is, and no earlier branch has one. |
| `Pushdown.CandidateAtRoot` | src/client/src/optimizer.rs:50-60 | The candidate is the plan itself exactly when the plan is one of the four shapes. |
| `PlanRegistration.RegistrationIsSafe` | src/client/src/client_exec.rs:248-300 | For any number of client nodes and partitions, any interleaving, failure or lost reply: at most one registration is sent per handle, no lookup misses, and every stream runs a plan that some partition of its handle carries. |
| `PlanRegistration.OwnPlansExactly` | src/client/src/client_exec.rs:134-147 | Every stream runs the plan of its own node in every run if and only if nodes that share a handle, as a node and its rebuilt copies do, carry equal plans. |
| `PlanRegistration.DoGetAfterRegistration` | src/server/src/service.rs:144-170 | Every do_get comes after a registration of its handle at the server. |
| `PlanRegistration.StepKeepsInv` | src/client/src/client_exec.rs:248-300 | Every step keeps the invariant: one registrar per handle, a published flag only after the server holds the plan. |
| `PlanRegistration.PlansHaveOrigin` | src/server/src/service.rs:144-150 | What the server holds for a handle came from a registration in the run. |
| `PlanRegistration.NobodyTakesOver` | src/client/src/client_exec.rs:282-289 | After the registering partition failed, in every continuation of every run the flag stays in progress, no other partition takes over, and a waiting partition waits on unless it fails. |
| `CompressorTraining.LaterReadsDecode` | src/storage/src/cache/core.rs:716-733 | An array encoded at any time decodes to the original under the compressor stored at any later time, which was set exactly once. |
| `CompressorTraining.StoredAtMostOnce` | src/storage/src/cache/transcode.rs:16-33 | No run stores the compressor twice. |
| `CompressorTraining.StepKeepsInv` | src/storage/src/cache/transcode.rs:16-33 | Every lock, look, training, store and encoding step keeps the invariant, and what was built stays built. |
| `CompressorTraining.CompressorIsFinal` | src/storage/src/cache/transcode.rs:25-32 | No step replaces a compressor that is set. |
| `CompressorTraining.NoDeadlock` | src/storage/src/cache/transcode.rs:16-33 | While any call is under way, some thread can take a step. |
| `BatchCoalescing.PollsConserve` | src/server/src/utils.rs:38-73 | Over every sequence of polls, with pending and error results: rows emitted, then buffered, then still to come are the input rows in order, and every error is reported once. |
| `BatchCoalescing.PollsSizes` | src/server/src/utils.rs:45-69 | In every run the i-th emitted batch merges the i-th of consecutive, adjacent runs of the input batches; each run exceeds the threshold and does not without its last batch, except that the last run may stay below; at the end all runs are emitted and nothing is buffered. |
| `BatchCoalescing.WellSizedExactly` | src/server/src/utils.rs:45-52 | For a target size there is exactly one way to cut batches into adjacent runs of more than three quarters of the target, but not without their last batch (the last run may stay below): the greedy one. |
| `BatchCoalescing.StreamSizes` | src/server/src/utils.rs:45-69 | For a target size, in every sequence of polls the i-th emitted batch is the i-th of these runs merged. |
| `BatchCoalescing.PollsFollowGroups` | src/server/src/utils.rs:41-72 | The emitted batches are the first groups of the greedy cut of the input; neither pending polls nor errors move a cut. |
| `BatchCoalescing.WellCutIsUnique` | src/server/src/utils.rs:45-52 | That cut is the only one with these sizes. |
| `BatchCoalescing.PollingDeliversAll` | src/server/src/utils.rs:54-70 | Whoever keeps polling gets all rows of the inner stream. |
| `BatchCoalescing.PollConserves` | src/server/src/utils.rs:41-72 | One poll conserves rows and order. |
| `BatchCoalescing.PollKeepsErrors` | src/server/src/utils.rs:54-54 | One poll reports an error of the inner stream exactly when it reads one. |
| `BatchCoalescing.PollFollowsGroups` | src/server/src/utils.rs:41-72 | One poll emits the first group of what is buffered and to come, or nothing. |
| `BatchCoalescing.FinalStream.PollNext` | src/server/src/utils.rs:41-72 | The loop terminates, computes the specified outcome and state, and keeps the row counter equal to the buffered rows. |

## Left out

- Lineage of unions, right semi and anti joins, window expressions, repartitions, DISTINCT, grouping sets, subquery expressions, wildcards, placeholders and unlisted plan nodes: not modelled.
- Substring and variant findings of the lineage pass, and the attachment of annotations to table sources: they do not promise that the raw column is unused.
- LineageAnalysis.LineageAnalyzer.AnalyzePlan: a column that the lineage does not know is looked up in the schema by its qualified name, or by its name alone if it has no qualifier; the library's ambiguity errors are not modelled.
- Noninterference.DateNoninterference: the type argument of `variant_get` is a literal; src/parquet/src/reader/variant_udf.rs refuses any other (lines 102 to 109 and 154 to 160).
- QueryAnnotations.AnnotatedExactly: no column name belongs to both inputs of a join, and every schema of the plan that has the column gives it one type, as the library's schemas ensure for qualified columns; the type argument of `variant_get` is not counted as a use.
- NoninterferenceExact.NoninterferenceExactly: the "only if" half is about plans that can return a row on tables of equal rows, where a grouped aggregation yields one group; a plan that returns rows only when there are several groups is not covered. The "if" half (`AgreedAnswersEqual`) is about all plans.
- AndThenPdep.Bmi2: takes bit offset 0.
- CacheStore.LiquidCache.InsertInner: a squeezed batch is inserted only for an id whose bytes are on disk, as hydration does; otherwise squeezing the cached entry could overwrite the file behind it.
- CacheStore.LiquidCache.ReadArrowArray: un-hinted reads only; hinted date-component and variant reads, and the lossy variant form of squeezed arrays, are not modelled.
- CacheStore.LiquidCache.EvalPredicateWithFilter: variant shredding before evaluation and errors of the expression evaluator are not modelled.
- CacheStore.LiquidCache.FindVictim: any policy that meets the stated contract, which the default policy does; the CLOCK, SIEVE, S3-FIFO, FIFO and FILO policies are not modelled.
- Concurrent cache calls on one id: reading, adjusting and inserting are three actions in `try_insert`; it is one step here.
- Arrow kernels, FSST, the Liquid encodings and file formats: taken by contract (decoding undoes encoding, filters select, a squeezed form is completed from its file). Array sizes are arbitrary.
- The disk usage counter, metrics, tracing and the event observer: not modelled.
- BudgetProtocol.BudgetIsSafe: a release is at most what the thread holds, and requests are small enough not to wrap; memory orderings weaker than sequential consistency are not modelled.
- LruSimulator.LruCache.Get: counters and sizes are unbounded; the wrap of 64-bit sums is not modelled. The same holds for the CLOCK simulator, the bucket loads and the batch sizes.
- The LFU and FIFO simulators: they would only repeat the size invariant.
- Fingerprint.EvalIter: covers the string and the binary variant by a parameter that says which values are text; patterns are matched bytewise, which for UTF-8 text is the same as matching characters.
- BucketBalance.OptimizedMappingTable: the bound of 4/3 is for tables without pattern bytes, which are placed in byte order and not by frequency; histogram sampling and the reading of custom tables are not modelled.
- PlanRegistration.RegistrationIsSafe: safety only; after a failed registration the waiting partitions keep waiting (`NobodyTakesOver`). Object store registration is a step that may fail.
- CompressorTraining.LaterReadsDecode: a panic while training, which would poison the lock, is not modelled.
- BatchCoalescing.FinalStream.PollNext: all batches of a stream share one schema, so merging them does not fail; an inner stream that has ended keeps reporting its end.
- Flight and gRPC transport, object stores, io_uring and file back ends, admin handlers, dev tools and benchmark runners: not modelled.
