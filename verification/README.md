# RocksDB: compaction, caches and version hand-off in Dafny

This project models the parts of RocksDB where many cases, counters or threads have to agree, and proves what
they promise for every input or every interleaving.

- **Compaction of one sorted run** (`Records`, `Levels`, `CompactionSpec`, `CompactionFacts`, `CompactionPositions`,
  `CompactionReads`, `CompactionOutput`, `CompactionDeeper`, `CompactionAssertions`, `CompactionIterator`,
  `CompactionEdges`). `Compact` is the output as a function; the class `CompactionIterator` is the object the source
  writes, with its flags and input cursor, and its run is proved to be `Compact`. On `Compact` rest the main theorems:
  the output position by position, every read at a live snapshot keeps its answer (with puts, deletes and single
  deletes), the output order survives sequence-number zeroing, the bottom level keeps no old tombstone, write-conflict
  evidence is neither lost nor invented, and when the source's own assertions hold.
- **Splitting a compaction** (`Subcompaction`, `SubcompactionExact`, `SubcompactionReads`): the choice of key ranges,
  exactly when the ranges together give the unsplit output, and that they give the same reads.
- **Dictionary sampling** (`DictionarySampler`) and **completing user-chosen input files** (`InputSanitizer`).
- **SuperVersions** (`SuperVersion`, `SuperVersionOperations`), the **CLOCK cache** (`ClockCache`, `ClockOperations`) and
  **obsolete-file purging** (`FilePurge`) as step relations over shared state: each atomic operation of the source is one
  step, threads are arbitrarily many, and the theorems hold after every finite run. Beside safety they say what each
  operation gives its caller when nobody comes in between, and how the state follows from the history of the run.
- **The LRU cache shard** (`LruTable`, `LruRing`, `LruOrder`, `LruBooks`, `LruShard`) as classes: the chained hash table,
  the circular list with its two priority segments, the order of recency on it, the reference counts and the four
  counters.
- **Prepared-section tracking** (`PrepHeap`): the heap with lazy deletion.

User keys are real numbers, since the code uses only their order and every order of countably many keys embeds in the
reals. Sequence numbers have 56 bits. Sizes, charges, reference counts and file numbers are unbounded.

What holds with exceptions, and exactly which:

- While a snapshot at sequence number 0 is held, records at 0 are treated wrongly in two places, because 0 also stands
  for "no snapshot yet". A key whose newest record is a put or delete at 0 looks hidden, and a single delete directly
  above a record at 0 is taken to share its stripe. `CompactionReads.CompactionPreservesReads`,
  `CompactionOutput.NoTombstoneAtTheBottom`, `CompactionOutput.WriteConflictsStayVisible` and
  `CompactionOutput.CompactKeepsExactlySurvivors` say, as equivalences, which reads, tombstones, write-conflict evidence
  and records this costs, in terms of record positions; without a snapshot at 0 there are no exceptions.
  `CompactionEdges` has an input for each.
- A split compaction writes the records of the unsplit one unless some boundary tells: something acts before it, and the
  first two records that act from it on are one that comes out and, of the same key, a single delete above the
  write-conflict boundary with the record it deletes (`SubcompactionExact.SplitEqualsWhole`, with
  `CompactionEdges.SplitCanDiffer`). In any case it answers reads as the input does, the readers above excepted
  (`SubcompactionReads.SplitPreservesReads`).
- The assertions of the compaction loop fail exactly where a single delete that is kept stands directly above a Delete, or
  above a record at 0 while a snapshot at 0 is held (`CompactionAssertions.SourceAssertionsHold`).
- The CLOCK cache exceeds its capacity only through an insertion whose caller keeps the handle, without the strict limit,
  or by a capacity set below the usage (`ClockCache.StrictLimitHolds`, with `ClockCache.HeldInsertMayExceed`).
- The LRU list is in the order of the last release or insertion, each priority segment for itself, except that an entry
  demoted from the high-priority pool may stand behind one released after it (`LruOrder.NewerBehind`, with
  `LruOrder.DemotedBehindNewer`).
- A negative high-priority pool ratio runs into the assertion on the dummy head of the LRU list unless the capacity is 0
  (`LruShard.LRUCacheShard.SetHighPriorityPoolRatio`).
- Comments in `ReturnThreadLocalSuperVersion` say that a failed compare-and-swap means an obsolete SuperVersion and a
  successful one a current one. `SuperVersion.ReturnTells` says when each is so; the code is safe either way.

Otherwise the order of the output, the absence of old tombstones at the bottom and the write-conflict evidence hold for
all sorted inputs of puts, deletes and single deletes, however they are mixed on a key.

## Model

| member | source | states |
|---|---|---|
| Records.LookupDecidedByNewest | rocksdb/db/dbformat.cc:89-133 | in internal-key order the first visible version of a key is its newest one, and a lookup finds nothing exactly when no version is visible |
| Levels.LevelBounds | rocksdb/db/compaction.cc:45-95 | the tightest interval around one level's files, from all files in level 0 and from the first and last elsewhere |
| Levels.GetBoundaryKeys | rocksdb/db/compaction.cc:45-95 | the tightest key interval around all input files |
| Levels.OverlapInLevel | rocksdb/db/version_set.cc:447-483 | on a sorted level, true exactly when some file overlaps the range |
| Levels.IsBottommostLevel | rocksdb/db/compaction.cc:99-133 | true exactly when the oldest level-0 file is included, or level 0 is no input, and no deeper file overlaps the input hull; with output level 0, when there is no deeper file at all |
| Levels.BottommostKeyAbsentBelow | rocksdb/db/compaction.cc:99-133 | every key in range of a bottommost compaction is absent below the output level |
| Levels.KeyNotExistsBeyondOutputLevel | rocksdb/db/compaction.cc:308-341 | with the remembered cursors the answer is that of a full scan, and the cursors only pass files that end before the key |
| Levels.AnswerAll | rocksdb/db/compaction.cc:308-341 | any run of queries with non-decreasing keys gets the stateless answers |
| CompactionSpec.VisibleFromSpec | rocksdb/db/compaction_iterator.cc:621-638 | the stripe of a sequence number is the least snapshot that sees it, or the maximum |
| CompactionSpec.PreviousOfSpec | rocksdb/db/compaction_iterator.cc:621-638 | the previous snapshot is the greatest one that does not see it |
| CompactionSpec.SameStripeTest | rocksdb/db/compaction_iterator.cc:405-408 | the test applied to the record after a single delete says that both lie in one stripe exactly when they do, except that a snapshot at 0 escapes it |
| CompactionFacts.OutputsComeFromInput | rocksdb/db/compaction_iterator.cc:179-619 | every output record is an input record, up to a zeroed sequence number or a cleared value |
| CompactionFacts.LowStripeSilent | rocksdb/db/compaction_iterator.cc:352-526 | once the earliest stripe of a key has been entered and nothing lies below, the key yields nothing more |
| CompactionFacts.PairHere | rocksdb/db/compaction_iterator.cc:405-460 | a single delete directly above a record at 0 that only a snapshot at 0 sees: the run drops both, or emits both with the lower one cleared, according to the write-conflict guard |
| CompactionPositions.CompactByPosition | rocksdb/db/compaction_iterator.cc:179-638 | for every sorted input the output is, position by position, the records that stand on their own and the pairs that are kept, the lower record of a kept pair without its value; whether a pair is kept depends on which earlier records of its key came out |
| CompactionPositions.LeavesPairByPosition | rocksdb/db/compaction_iterator.cc:405-460 | the run leaves a single delete above a record at 0 exactly if there is such a pair above the write-conflict boundary with no output of its key on record |
| CompactionReads.PairDropped | rocksdb/db/compaction_iterator.cc:422-448 | dropping a single delete together with its put leaves the key unreadable, as it was |
| CompactionReads.TombstoneDropped | rocksdb/db/compaction_iterator.cc:463-526 | dropping an obsolete tombstone leaves the key unreadable, as it was |
| CompactionReads.HiddenHead | rocksdb/db/compaction_iterator.cc:179-619 | whatever happens to a version newer than the read point does not change the read |
| CompactionReads.HiddenKeyVanishes | rocksdb/db/compaction_iterator.cc:493-505 | while a snapshot at 0 is held, a key whose newest record is a put or delete at 0 leaves nothing in the output |
| CompactionReads.PairReadAtZero | rocksdb/db/compaction_iterator.cc:405-460 | what a reader at 0 gets from the output for a key with a single delete directly above its record at 0 |
| CompactionReads.CompactionPreservesReads | rocksdb/db/compaction_iterator.cc:179-638 | for every key and live read point, output over deeper data answers as input over deeper data, for puts and deletes or alternating puts and single deletes, exactly unless a snapshot at 0 leads the reader astray: the key's newest record is at 0 and deeper data answers differently, or the reader is at 0 and a single delete stands directly above a put at 0 whose value is lost |
| CompactionOutput.BottommostTestSuffices | rocksdb/db/compaction.cc:99-133 | the bottommost test gives what the output theorems need: nothing lies below any input key |
| CompactionOutput.NoTombstoneAboveNothing | rocksdb/db/compaction_iterator.cc:463-526 | of a key that nothing below the output level can hold, any compaction emits a tombstone at or below the earliest snapshot exactly when, with a snapshot at 0, a pair of a single delete and a Delete at 0 is kept |
| CompactionOutput.NoTombstoneAtTheBottom | rocksdb/db/compaction_iterator.cc:493-619 | a bottommost compaction emits a tombstone at or below the earliest snapshot exactly when, with a snapshot at 0, the input has a pair of a single delete and a Delete at 0 that is kept; otherwise zeroing touches only values |
| CompactionOutput.ZeroedIsLast | rocksdb/db/compaction_iterator.cc:600-619 | after a record with zeroed sequence number its key yields nothing more |
| CompactionOutput.OutputSorted | rocksdb/db/compaction_iterator.cc:179-619 | output internal keys strictly increase, zeroed ones included |
| CompactionOutput.SequenceNumbers | rocksdb/db/compaction_iterator.cc:600-619 | a bottommost compaction that does not ingest behind leaves, except on its largest key, only sequence number 0 and numbers some snapshot does not see; on its largest key, in a flush and in any other compaction every output has exactly the sequence number of the input record it comes from |
| CompactionOutput.WriteConflictsStayVisible | rocksdb/db/compaction_iterator.cc:171-526 | for a snapshot at or above the write-conflict boundary, the output holds a record of a key newer than it exactly when the input does and the key is not, above a snapshot at 0, nothing but single deletes down to 0 |
| CompactionOutput.CompactKeepsExactlySurvivors | rocksdb/db/compaction_iterator.cc:493-619 | without single deletes the output is exactly the newest version of each key in each stripe, minus obsolete tombstones and, with a snapshot at 0, keys whose newest version is at 0 |
| CompactionDeeper.AbsentMeansNone | rocksdb/db/compaction.cc:308-341 | a key that no deeper file spans has no answer in the records of the deeper files |
| CompactionDeeper.DeeperAgrees | rocksdb/db/compaction.cc:99-133 | whatever the deeper files hold, the level check and the bottommost test tell the truth about every input key, in both compaction styles |
| CompactionDeeper.ReadsThroughLevelsKept | rocksdb/db/compaction_iterator.cc:179-638 | compacting a run changes no read through the run and the files of the deeper levels, with the same exact exception |
| CompactionAssertions.SourceAssertionsHold | rocksdb/db/compaction_iterator.cc:350-619 | the assertions on records to be cleared, hidden records and zeroed records hold throughout the run exactly if every kept pair has a Put below and is not a pair at 0; with no Delete below a single delete and no snapshot at 0 they always hold |
| CompactionAssertions.DeleteBelowSingleDelete | rocksdb/db/compaction_iterator.cc:352-361 | an input on which the assertion on the type of a record to be cleared fails |
| CompactionIteration.CompactionIterator.constructor | rocksdb/db/compaction_iterator.cc:40-109 | a new iterator has read nothing and remembers nothing |
| CompactionIteration.CompactionIterator.FindEarliestVisibleSnapshot | rocksdb/db/compaction_iterator.cc:621-638 | the loop over the snapshots finds the stripe and the previous snapshot |
| CompactionIteration.CompactionIterator.KeyGoneBelow | rocksdb/db/compaction_iterator.cc:475-510 | the level check inside the loop answers the stateless question and leaves cursors that suit the rest of the input |
| CompactionIteration.CompactionIterator.HandleSingleDelete | rocksdb/db/compaction_iterator.cc:362-492 | the look-ahead of a single delete does what the step function says, flags and position included |
| CompactionIteration.CompactionIterator.TakeUp | rocksdb/db/compaction_iterator.cc:223-348 | taking up a record enters its key and stripe |
| CompactionIteration.CompactionIterator.Iterate | rocksdb/db/compaction_iterator.cc:350-526 | one turn of the main loop is one step of the specification |
| CompactionIteration.CompactionIterator.NextFromInput | rocksdb/db/compaction_iterator.cc:179-598 | the main loop stops at the next output and skips nothing that should be output |
| CompactionIteration.CompactionIterator.PrepareOutput | rocksdb/db/compaction_iterator.cc:600-619 | zeroes the sequence number exactly where the specification does |
| CompactionIteration.CompactionIterator.SeekToFirst | rocksdb/db/compaction_iterator.cc:126-130 | everything the caller will see is the whole compaction output |
| CompactionIteration.CompactionIterator.Next | rocksdb/db/compaction_iterator.cc:132-177 | moves on by exactly one output record |
| CompactionIteration.RunToEnd | rocksdb/db/compaction_iterator.cc:126-638 | iterating to the end yields exactly `Compact` |
| CompactionEdges.ZeroSnapshotHidesPut | rocksdb/db/compaction_iterator.cc:493-506 | with a snapshot at 0, a key's newest put at sequence number 0 is dropped although the snapshot reads it |
| CompactionEdges.ZeroSnapshotDropsPair | rocksdb/db/compaction_iterator.cc:405-448 | in any compaction or flush with a snapshot at 0, a single delete up to the write-conflict boundary cancels a put that the snapshot still reads |
| CompactionEdges.ZeroSnapshotLosesEvidence | rocksdb/db/compaction_iterator.cc:405-421 | in any compaction or flush with a snapshot at 0, two single deletes, the lower at 0, after which the write is no longer visible to conflict checking |
| CompactionEdges.ZeroSnapshotKeepsTombstone | rocksdb/db/compaction_iterator.cc:452-460 | with a snapshot at 0, a well-formed bottommost compaction of one file that keeps a Delete at 0 below a single delete |
| CompactionEdges.SplitCanDiffer | rocksdb/db/compaction_iterator.cc:126-177 | a well-formed compaction of two level-0 files whose output, split at a candidate key inside the hull, differs from the unsplit one |
| Subcompaction.AppendEndpoints | rocksdb/db/compaction_job.cc:421-463 | adds exactly the candidate keys of one input level |
| Subcompaction.CollectBounds | rocksdb/db/compaction_job.cc:421-463 | the candidates are exactly those of all input levels |
| Subcompaction.CandidatesCover | rocksdb/db/compaction_job.cc:421-463 | least and greatest candidate enclose every input file |
| Subcompaction.SortUnique | rocksdb/db/compaction_job.cc:465-478 | sorting and deduplicating keeps the set and makes it strictly increasing |
| Subcompaction.EstimateRanges | rocksdb/db/compaction_job.cc:480-498 | the size of every pair of neighbouring candidates, and their total |
| Subcompaction.OutputFiles | rocksdb/db/compaction_job.cc:500-504 | the least number of files, filled to four fifths, that hold the estimated bytes |
| Subcompaction.Planned | rocksdb/db/compaction_job.cc:500-508 | the least of the number of ranges, the number allowed and the number of output files expected |
| Subcompaction.GroupRanges | rocksdb/db/compaction_job.cc:510-530 | consecutive groups, each closed at the first range that lifts it to the mean, at most the planned number, sizes adding up to the total |
| Subcompaction.GenSubcompactionBoundaries | rocksdb/db/compaction_job.cc:412-535 | if more than one piece is planned, a boundary stands after every range at which the running size first reaches the mean while more than one piece is left, and otherwise there is none; boundaries strictly increase, are candidates strictly inside the hull, respect the limits, and the sizes add up |
| Subcompaction.EveryKeyInOneRange | rocksdb/db/compaction_job.cc:383-389 | the ranges between the boundaries partition the key space |
| Subcompaction.RunPiece | rocksdb/db/compaction_job.cc:771-829 | the loop of one subcompaction, driving the iterator object, writes exactly its piece |
| Subcompaction.CutCompaction | rocksdb/db/compaction_job.cc:771-829 | at any key the output falls apart into the output of the records below and what the run, remembering only whether it has output anything, writes of the rest |
| Subcompaction.FirstDecides | rocksdb/db/compaction_iterator.cc:126-177 | having output something before makes a difference exactly if, between its first and second output and within one key, the run takes up a single delete above the write-conflict boundary with a record of its stripe below it |
| SubcompactionExact.PieceByPosition | rocksdb/db/compaction_iterator.cc:126-177 | a piece outputs something exactly if some position acts, and its first output matters exactly if the first two positions that act are a record that stands and a pair above the write-conflict boundary, of one key |
| SubcompactionExact.SplitEqualsWhole | rocksdb/db/compaction_job.cc:361-829 | for any input and boundaries, the concatenated pieces are the unsplit output exactly if no boundary with something acting before it has such first two positions from it on |
| SubcompactionExact.SplitExactBelowBoundary | rocksdb/db/compaction_job.cc:361-829 | with no single delete above the write-conflict boundary every split is exact |
| SubcompactionReads.PieceReads | rocksdb/db/compaction_job.cc:771-829 | the piece that covers a key answers every read of it as the input does, exactly unless a snapshot at 0 leads the reader astray in it |
| SubcompactionReads.SplitPreservesReads | rocksdb/db/compaction_job.cc:361-829 | all pieces together answer every read as the input does, single deletes included, with the same exact exception |
| DictionarySampler.AddElement | rocksdb/db/compaction_job.cc:854-917 | one key or value adds exactly the bytes that samples cover, across element borders, and the source's offset assertion holds |
| DictionarySampler.SampleStream | rocksdb/db/compaction_job.cc:854-917 | whatever the element lengths, the dictionary is the concatenation of the available bytes of every sample of the whole stream |
| InputSanitizer.HaveOverlappingKeyRanges | rocksdb/db/compaction_picker.cc:772-794 | the four-way case analysis is interval overlap |
| InputSanitizer.FindIncluded | rocksdb/db/compaction_picker.cc:827-851 | first and last chosen file of a level |
| InputSanitizer.ExpandTouching | rocksdb/db/compaction_picker.cc:853-879 | widens a level's range over neighbours that share a key, taking only files every closed choice contains |
| InputSanitizer.IncludeRange | rocksdb/db/compaction_picker.cc:881-891 | adds exactly the files between first and last, or reports one that is being compacted |
| InputSanitizer.WidenRange | rocksdb/db/compaction_picker.cc:893-924 | the new key range is the hull of the old one and the level's files |
| InputSanitizer.IncludeTouching | rocksdb/db/compaction_picker.cc:926-953 | adds exactly the files of this and deeper levels that overlap the range, or reports one that is being compacted |
| InputSanitizer.TouchingLiesInside | rocksdb/db/compaction_picker.cc:926-953 | files added at the current level do not widen its range any more |
| InputSanitizer.SanitizeForAllLevels | rocksdb/db/compaction_picker.cc:797-956 | succeeds exactly when no file that must join is being compacted, and then yields the least closed superset of the user's files |
| InputSanitizer.ClosedMeansCleanCut | rocksdb/db/compaction_picker.cc:797-956 | the chosen files of a level above 0 are contiguous and share no key with files left out |
| InputSanitizer.FindFile | rocksdb/db/compaction_picker.cc:1000-1019 | whether a number names a file of some level, and whether that file is being compacted |
| InputSanitizer.AdditionsExist | rocksdb/db/compaction_picker.cc:797-956 | files are added only if they exist |
| InputSanitizer.SanitizeCompactionInputFiles | rocksdb/db/compaction_picker.cc:958-1030 | accepted exactly when the arguments are good, nothing that must join is busy and every user file exists and is idle; otherwise which error |
| SuperVersion.StepKeepsInv | rocksdb/db/column_family.cc:961-1087 | every atomic step of gets, returns, releases, thread exits and installs keeps the accounting |
| SuperVersion.EveryRunSafe | rocksdb/db/column_family.cc:308-371 | after every run a count is one if current, plus slots caching it, plus holders; cleanup runs exactly once, when nobody holds the version; and outside an install no slot caches a superseded version |
| SuperVersion.SourceAssertionsHold | rocksdb/db/column_family.cc:961-1037 | after every run the assertions on slots, counts and cleanup hold for every thread, and the ignored Unref is never the last |
| SuperVersion.FailedReturnMayHoldCurrent | rocksdb/db/column_family.cc:1017-1037 | a run in which the compare-and-swap fails although the version held is current |
| SuperVersion.ReturnTells | rocksdb/db/column_family.cc:1017-1037 | after every run, the version a thread is about to return is obsolete exactly if some install has published since the thread got hold of it; if the compare-and-swap will succeed, exactly while the slot awaits that install's scrape |
| SuperVersion.SuccessfulReturnMayHoldSuperseded | rocksdb/db/column_family.cc:1017-1037 | a run in which the compare-and-swap succeeds with a superseded version |
| SuperVersionOperations.ReturnCaches | rocksdb/db/column_family.cc:1021-1037 | after every run, a return succeeds exactly if no scrape has taken the slot since the thread swapped it, and then the slot caches the version returned; otherwise the slot stays obsolete and a reference is left to drop |
| SuperVersionOperations.GetAlone | rocksdb/db/column_family.cc:974-1019 | with nobody in between a get uses the current version: a cached one without mutex or count, otherwise one more reference taken under the mutex |
| SuperVersionOperations.ExitAlone | rocksdb/db/column_family.cc:358-370 | a thread that exits gives up the version its slot caches, and cleans it up if that was the last reference |
| SuperVersionOperations.HandOutAlone | rocksdb/db/column_family.cc:961-972 | a referenced get hands out one reference more and leaves the version cached |
| SuperVersionOperations.ReleaseAlone | rocksdb/db/column_family.cc:321-327 | releasing such a reference gives it back, and cleans up if it was the last |
| ClockCache.ReferencedKeepsKey | rocksdb/cache/clock_cache.cc:650-674 | a handle somebody references keeps its key through every step |
| ClockCache.StepKeepsInv | rocksdb/cache/clock_cache.cc:425-720 | every atomic step, of lookups, a client's Ref, releases, insertions, evictions and erasures, keeps reference counts, recycle duties, the table and the usage exact |
| ClockCache.EveryRunSafe | rocksdb/cache/clock_cache.cc:425-720 | after every run a handle is recycled at most once per fill and only out of cache without references, a held handle has the key it was looked up for, and whenever the mutex is free the table lists exactly the handles in cache and usage is the charge outside the bin |
| ClockCache.SourceAssertionsHold | rocksdb/cache/clock_cache.cc:425-556 | after every run a count is positive before it drops, an evicted entry is still in the table, a recycled handle is unreferenced, out of cache and not yet in the bin |
| ClockCache.OnlyTwoWays | rocksdb/cache/clock_cache.cc:531-622 | from usage within capacity, only publishing an entry that found no room, or a capacity set below the usage, leads above it |
| ClockCache.InsertEndsWithin | rocksdb/cache/clock_cache.cc:576-622 | after any run, an insertion that found room, or whose caller keeps no handle, ends within capacity |
| ClockCache.StrictLimitHolds | rocksdb/cache/clock_cache.cc:531-622 | in every run whose insertions are under the strict limit or keep no handle, and that sets no capacity below the usage, usage never exceeds capacity |
| ClockCache.HeldInsertMayExceed | rocksdb/cache/clock_cache.cc:576-622 | for any capacity and larger charge, a run without the strict limit that ends above capacity |
| ClockOperations.LookupAlone | rocksdb/cache/clock_cache.cc:650-674 | after any run, with the mutex free and nobody in between, a lookup ends holding the handle the table lists, with one reference more; for a key that is not listed nothing changes |
| ClockOperations.LookupUnderInterference | rocksdb/cache/clock_cache.cc:650-674 | a lookup whose compare-and-swap succeeded ends holding the handle, whatever others do before it compares the key, exactly if the handle had that key at the compare-and-swap |
| ClockOperations.RefAlone | rocksdb/cache/clock_cache.cc:451-472 | a client's Ref gives one reference more exactly if the entry is in cache |
| ClockOperations.ReleaseAlone | rocksdb/cache/clock_cache.cc:474-497 | a release gives back one reference and sets the usage bit; whoever drops the last one of an entry out of cache has to recycle it |
| ClockOperations.RecycleAlone | rocksdb/cache/clock_cache.cc:425-437 | recycling puts the handle into the bin and takes its charge off the usage |
| ClockOperations.EraseAlone | rocksdb/cache/clock_cache.cc:695-707 | an erase takes the entry out of table and cache, and into the bin exactly if nobody holds it; for a key that is not listed nothing changes |
| ClockOperations.InsertAlone | rocksdb/cache/clock_cache.cc:576-622 | with room, or if it may do without, an insertion of a new key ends with the table listing the new entry and the caller holding it if asked for; otherwise nothing changes |
| ClockOperations.EvictAlone | rocksdb/cache/clock_cache.cc:514-529 | trying a handle evicts it exactly if it is in cache, unreferenced and unused; otherwise it only loses its usage bit |
| ClockOperations.UsageBit | rocksdb/cache/clock_cache.cc:474-622 | the usage bit is set by releases, cleared by tries to evict and by new entries, and untouched by every other step |
| ClockOperations.ClearAlone | rocksdb/cache/clock_cache.cc:709-720 | clearing empties the table and leaves nothing in cache |
| ClockOperations.SettersAlone | rocksdb/cache/clock_cache.cc:558-573 | the setters set capacity and strict limit and nothing else |
| ClockOperations.OperationEnds | rocksdb/cache/clock_cache.cc:576-720 | whatever others do meanwhile: when an erase ends its key is not listed, when a clear ends nothing is in cache, when an insertion ends the table lists its key for the handle with its charge |
| FilePurge.FrontIsLeast | rocksdb/db/db_impl.cc:2044-2058 | the list of pending outputs stays sorted, so its front is the least number any running job captured |
| FilePurge.ListedDead | rocksdb/db/db_impl_files.cc:148-222 | a file found by the scan and not kept is neither live nor going to be installed |
| FilePurge.StepKeepsInv | rocksdb/db/db_impl_files.cc:148-222 | every step of jobs and purgers keeps pending deletions harmless |
| FilePurge.EveryRunSafe | rocksdb/db/db_impl_files.cc:361-526 | after every run the live files are those first live or installed and not dropped since; each of them is on disk, and so is each file a job has written and neither installed nor given up |
| FilePurge.NoPurgeHitsNeededFile | rocksdb/db/db_impl_files.cc:452-458 | no deletion hits a live file or one a running job will still install |
| FilePurge.FullPurge | rocksdb/db/db_impl_files.cc:361-458 | after any run, a full purge leaves exactly the live files and those not below the least captured number, hence every file installed and not dropped since; with no job running, exactly those |
| FilePurge.LiveByHistory | rocksdb/db/db_impl_files.cc:204 | a file is live exactly if it was at first or the run has installed it, and the run has not dropped it since |
| FilePurge.ShortPurge | rocksdb/db/db_impl_files.cc:177-194 | after any run, a purge that does not list the directory deletes exactly the obsolete files below the least captured number, among them all dropped since the last purge began |
| FilePurge.JobAlone | rocksdb/db/db_impl.cc:2044-2058 | a job with nobody in between adds one file, numbered next, to the directory and to the live files |
| LruTable.MaskIsRemainder | rocksdb/cache/lru_cache.cc:73-81 | masking with a power of two minus one is the remainder |
| LruTable.LRUHandleTable.BucketIsRemainder | rocksdb/cache/lru_cache.cc:73-88 | the bucket of a valid table is the hash modulo its length, and every bucket can be picked |
| LruTable.LRUHandleTable.constructor | rocksdb/cache/lru_cache.cc:25-28 | a new table stands for the empty map |
| LruTable.LRUHandleTable.FindPointer | rocksdb/cache/lru_cache.cc:73-81 | the slot of the matching entry, or the end of its chain exactly when there is none |
| LruTable.LRUHandleTable.Lookup | rocksdb/cache/lru_cache.cc:40-43 | map lookup |
| LruTable.LRUHandleTable.Insert | rocksdb/cache/lru_cache.cc:45-60 | map update, returning the replaced handle; size and length stay right through a resize |
| LruTable.LRUHandleTable.Remove | rocksdb/cache/lru_cache.cc:62-71 | map removal, returning the removed handle |
| LruTable.LRUHandleTable.Resize | rocksdb/cache/lru_cache.cc:83-108 | same map in the least power of two from 16 on that is at least one and a half times the size |
| LruTable.LRUHandleTable.Rehash | rocksdb/cache/lru_cache.cc:89-105 | rehashing loses and duplicates nothing; the count of moved entries is the size |
| LruTable.MoveChain | rocksdb/cache/lru_cache.cc:93-103 | moving one chain adds exactly its entries |
| LruOrder.NewerBehind | rocksdb/cache/lru_cache.cc:192-244 | in each segment of the list an entry that has not been demoted was released or inserted after everything before it |
| LruOrder.DemotedBehindNewer | rocksdb/cache/lru_cache.cc:218-227 | a list on which a demoted entry stands behind one released after it |
| LruOrder.OrderLinked | rocksdb/cache/lru_cache.cc:192-216 | linking an entry at the head of the list or of the low-priority pool keeps that order |
| LruOrder.OrderPassed | rocksdb/cache/lru_cache.cc:218-227 | demoting the oldest high-priority entry keeps that order, the entry counting as the newest of the low-priority pool |
| LruBooks.DocumentedStates | rocksdb/cache/lru_cache.h:27-44 | each handle is in exactly one of the three documented states or freed; it is on the list exactly if only the cache holds it; the deleter has run at most once, and never while a client holds it |
| LruRing.LRURing.constructor | rocksdb/cache/lru_cache.cc:110-117 | the dummy head points at itself and nothing is low-priority |
| LruRing.LRURing.First | rocksdb/cache/lru_cache.cc:232-233 | the head's successor is the oldest entry, or the head itself |
| LruRing.LRURing.Remove | rocksdb/cache/lru_cache.cc:175-184 | unlinks the entry, clears its pointers and moves the low-priority pointer back if it stood there |
| LruRing.LRURing.InsertHead | rocksdb/cache/lru_cache.cc:196-201 | links the entry as the newest |
| LruRing.LRURing.InsertLow | rocksdb/cache/lru_cache.cc:206-214 | links the entry behind the low-priority pointer and moves the pointer to it |
| LruRing.LRURing.NothingAbove | rocksdb/cache/lru_cache.cc:221-223 | the low-priority pointer's successor is the dummy head exactly if no entry is high-priority |
| LruRing.LRURing.AdvanceLow | rocksdb/cache/lru_cache.cc:221-223 | moves the low-priority pointer one entry on, never to the dummy head |
| LruShard.LRUCacheShard.constructor | rocksdb/cache/lru_cache.cc:110-117 | a new shard is empty and valid |
| LruShard.LRUCacheShard.LruRemove | rocksdb/cache/lru_cache.cc:175-190 | takes one entry off the list, keeping segments and both sums exact |
| LruShard.LRUCacheShard.LruInsert | rocksdb/cache/lru_cache.cc:192-216 | links at the head of the list or of the low-priority pool as the newest there, keeping segments, order of recency and both sums exact; the boundary moves only over positions from which on the pool is too large |
| LruShard.LRUCacheShard.DemoteOne | rocksdb/cache/lru_cache.cc:220-226 | the oldest entry of the high-priority pool becomes the newest of the low-priority one |
| LruShard.LRUCacheShard.MaintainPoolSize | rocksdb/cache/lru_cache.cc:218-227 | ends within the pool's capacity at the first boundary that fits; the pointer comes back to the dummy head, against the source's assertion, exactly if the pool's capacity is negative |
| LruShard.LRUCacheShard.EvictOldest | rocksdb/cache/lru_cache.cc:232-243 | evicting the front entry of the list |
| LruShard.LRUCacheShard.EvictFromLRU | rocksdb/cache/lru_cache.cc:229-244 | evicts the shortest sufficient oldest-first prefix |
| LruShard.LRUCacheShard.Free | rocksdb/cache/lru_cache.h:118-125 | the deleter runs on an entry without references that is out of the cache |
| LruShard.LRUCacheShard.SetCapacity | rocksdb/cache/lru_cache.cc:246-260 | evicts and frees the shortest sufficient prefix for the new capacity |
| LruShard.LRUCacheShard.SetStrictCapacityLimit | rocksdb/cache/lru_cache.cc:262-266 | only the flag changes |
| LruShard.LRUCacheShard.SetHighPriorityPoolRatio | rocksdb/cache/lru_cache.cc:293-299 | the pool fits its new capacity, unless the ratio is negative and the capacity is not 0, when the assertion on the dummy head fails |
| LruShard.LRUCacheShard.Lookup | rocksdb/cache/lru_cache.cc:268-280 | finds by the table and takes a reference, leaving the list if only the cache had one |
| LruShard.LRUCacheShard.Ref | rocksdb/cache/lru_cache.cc:282-291 | takes a reference more |
| LruShard.LRUCacheShard.Unref | rocksdb/cache/lru_cache.cc:123-128 | one reference fewer, and whether it was the last |
| LruShard.LRUCacheShard.Release | rocksdb/cache/lru_cache.cc:301-339 | exactly when the entry is freed, and otherwise when and where it goes onto the list, as the newest of its segment and demoting no more than the pool's capacity asks for; over capacity the list is empty, as the source asserts |
| LruShard.LRUCacheShard.Insert | rocksdb/cache/lru_cache.cc:341-418 | exactly when the entry is admitted, what is evicted and replaced, where it goes onto the list, and that usage stays within capacity under the strict limit or without a handle |
| LruShard.LRUCacheShard.Erase | rocksdb/cache/lru_cache.cc:420-444 | removes the entry from the table and frees it unless a client holds it |
| LruShard.LRUCacheShard.EraseUnRefEntries | rocksdb/cache/lru_cache.cc:132-154 | erases and frees exactly the entries only the cache holds |
| LruShard.LRUCacheShard.GetUsage | rocksdb/cache/lru_cache.cc:446-450 | the sum of the charges of all live entries |
| LruShard.LRUCacheShard.GetPinnedUsage | rocksdb/cache/lru_cache.cc:452-457 | the sum of the charges of the entries clients hold |
| LruShard.RunAll | rocksdb/cache/lru_cache.cc:110-457 | after any run of legal client calls all of this holds, the list is in order of recency, and no deleter has run twice or on a held entry |
| LruShard.NothingLeaks | rocksdb/cache/lru_cache.cc:110-457 | once clients have released everything and the list is empty, every entry ever admitted has been freed exactly once and usage is 0 |
| PrepHeap.PrepTracker.MarkLogAsContainingPrepSection | rocksdb/db/db_impl_files.cc:61-70 | one more outstanding section of the log |
| PrepHeap.PrepTracker.MarkLogAsHavingPrepSectionFlushed | rocksdb/db/db_impl_files.cc:52-59 | one outstanding section fewer, for any log known to the tracker |
| PrepHeap.PrepTracker.FindMinLogContainingOutstandingPrep | rocksdb/db/db_impl_files.cc:72-104 | the least log with an outstanding section, 0 if there is none or two-phase commit is off; cleaning up changes no outstanding count |
| PrepHeap.RunAll | rocksdb/db/db_impl_files.cc:52-104 | in any run whose completions name prepared logs, every query answers for exactly the events before it |

## Left out

- Merge operands, range tombstones, compaction filters, listeners, corrupt keys and shutdown in the compaction iterator.
- CompactionReads.CompactionPreservesReads: asks for keys written by puts and deletes, or by alternating puts and single
  deletes, the documented use of SingleDelete; and that deeper data has nothing for keys the level check calls absent,
  which `CompactionDeeper.DeeperAgrees` derives for files below the output level. Older files that stay in level 0 are
  not deeper data.
- Building tables, choosing output files and their sizes, rate limiting, statistics, event logs and file I/O.
- The random draws behind the sample offsets and `ApproximateSize` are parameters.
- Binary search inside `SomeFileOverlapsRange` is a linear search; sorted levels, the thread-local slot exchange, the
  concurrent hash map and the priority queue (a sorted sequence) appear through their specifications.
- Weak memory orderings: every atomic operation takes effect at once.
- The first install of a SuperVersion precedes all readers; dropping a column family is not modelled.
- CLOCK: `pinned_usage_`, which is adjusted after the count drops, and the position of the clock hand; any handle may be
  tried next, and an eviction pass may stop anywhere.
- LRU: the ring is linked by next and prev maps over handles, the hash chains are sequences; the mutex makes each
  operation one step, with freeing after it; `ApplyToAllCacheEntries`, the table's destructor and the sharding.
- Overflow of sizes, charges, counts and the table's 32-bit length.
- Deletions handed to the background purge queue are deletions that happen later.
- Purging of log, manifest, temporary and info-log files, file-name parsing and duplicates among candidates, and
  switching deletions off.
- Prepared sections referenced by memtables (`FindMinPrepLogReferencedByMemTable`) and `MinLogNumberToKeep`.
- Write-stall control, option handling, the C interface and the command-line tools.
