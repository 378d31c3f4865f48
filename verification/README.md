# LevelDB and libuv cores, verified

This project models, in Dafny, the storage engine and the event-loop core that the application vendors:
LevelDB (`Lumiere_iOS/Pods/leveldb-library`) and libuv (`Lumiere_iOS/Pods/Libuv-gRPC`). It proves what those
libraries are for:

- **The LSM tree is a versioned map.** `Store` is a state machine of writes, memtable switches, flushes, trivial
  moves, compactions and snapshots. Every run keeps the layering invariant (`Store.RunsKeepInv`), the
  early-stopping lookup returns the newest visible entry of a layered version (`Lookup.VersionGet`, `Store.Get`), and
  every run of safe compactions reads exactly the history of writes (`Store.RunsReadHistory`). `Background` runs the
  real selection, merge, drop rule, splitting and version builder and shows that they are steps of that machine.
- **A flush inside a compaction can hide a key.** `Nested` splits a compaction into start and installation, with
  writes and flushes in between, as the source does. Its files then stay layered exactly when each compaction, on
  installation, is clear of the files that were flushed to its output level (`Nested.LayeredExactly`); the source does
  not check this, and `LostKey.WrittenKeyIsLost` is a run from the empty store after which the key written last is not
  found. Under the condition every lookup finds the newest write (`Nested.RunsFindHistory`).
- **One compaction is safe exactly when it uncovers nothing.** `Compaction.DropRuleExact` and
  `Store.CompactionExact` give the condition both ways. The source does not establish it: `AddBoundaryInputs` is
  applied to the compacted level but not to the next one. `Resurrection.DeletedValueReturns` is a run from the empty
  store that brings a deleted value back, taking only steps that the selection code takes
  (`Resurrection.TheCodeTakesTheseSteps`), and `Store.BoundaryClosedIsSafe` shows that closing the next level's
  inputs in the same way would be enough.
- **Iterators refine cursors.** `Merger.MergingIterator` is a cursor on the sorted union of its children and
  `Iteration.DBIter` a cursor on the sorted map of live user keys, through every change of direction.
- **Files read back.** Logs cut at any byte (`Log.CrashTruncation`) and the batches in them (`Batch.RecoverCutLog`),
  and from any bytes exactly the runs of fragments that are there (`LogRuns.ReadsExactlyTheRuns`);
  prefix-compressed blocks (`Block.BuildAndWalk`), tables looked up through shortened separators and bloom filters
  (`Table.InternalGet`), which answer as the version lookup assumes (`TableLookup.GetFromTable`), and manifests: from
  the bytes of a snapshot record and later edits, cut anywhere, the version that had been installed
  (`Recovery.Reopen`).
- **Acknowledged writes survive.** `Durability` puts the writer queue, log appends and syncs, both memtables, the
  background worker with a flush nested in a compaction, manifest installation, removal of obsolete files, process
  crashes and machine crashes in one state machine. `DurableReads` shows which entries are stored, while it runs and
  after a crash (`DurableReads.RunningReads`, `DurableReads.ReadsSurviveCrash`); `Levelled` puts the files at their
  levels and shows what the lookup finds of them (`Levelled.RunningFinds`, `Levelled.ReopenedFinds`), under the
  condition on flushes just named. An append that fails after part of it was written can hide later records of the
  same log: `Log.FailedAppendHides` gives the case, and the promise for sync writes holds for logs without one.
  `Progress.NeverStuck` shows that no reachable state keeps a waiting writer from being answered.
- **In-memory structures.** Skip list with interleaved readers, LRU cache with reference counts, libuv's worker pool,
  its pointer heap addressed by the bits of a position, and timers. Pool requests of one kind start in the order of
  submission (`Pool.ServedInOrder`), and results come back in the order in which the work ended
  (`Pool.DeliveredInOrder`). A pool request is delivered once exactly when its
  done callback does not cancel it again: `uv__work_cancel` accepts a request that was delivered as cancelled, because
  `QUEUE_REMOVE` leaves its links, and `Pool.DeliveredTwice` is such a run.

`dafny verify dfyconfig.toml` checks the project. Each module names its source files in its first comment.

How to read the model:

- User keys in the LSM modules are reals: a comparator is a total order on countably many byte strings and embeds
  into them (`Keys.RankPreservesOrder` for the bytewise one). `Block`, `Separator`, `Table`, `Batch`, `EditCodec` work
  on bytes; `Bytewise`, `TableLookup` and `Recovery` join the two.
- Pointers are node or handle numbers (`SkipList`, `Heap`, `Cache`); linked lists without sharing are sequences.
- Clocks, sizes, seek statistics, grandparent overlap tests and every other heuristic choice are parameters, so the
  results hold for all their outcomes.
- Hypotheses: internal keys parse, (user key, sequence) pairs are distinct (proved for runs of `Store`), and the
  smallest snapshot is below the maximal sequence number (an invariant of `Store`); `level + 1` is below the number
  of levels.

Where code and comments disagree, the code is modelled: `VersionEdit::Clear` leaves the compaction pointers, so
decoding into a used edit keeps the old ones (`EditCodec.RoundTrip`); in reverse direction `DBIter` may stand before
entries that the snapshot cannot see, not only before the entries of the current key.

## Model

| member | source | states |
|---|---|---|
| `Keys.RankPreservesOrder` | Lumiere_iOS/Pods/leveldb-library/util/comparator.cc:25-27 | the embedding of byte strings into the reals keeps the bytewise order exactly, so results over real user keys hold for that comparator |
| `Keys.Newest` | Lumiere_iOS/Pods/leveldb-library/db/db_impl.cc:1100-1136 | what a read means: the entry of the user key with the largest sequence number at or below the snapshot, or none |
| `Keys.NewestIs` | Lumiere_iOS/Pods/leveldb-library/db/db_impl.cc:1100-1136 | with distinct (user key, sequence) pairs that entry is unique |
| `Lookup.FindFile` | Lumiere_iOS/Pods/leveldb-library/db/version_set.cc:88-106 | the result of the binary search in files of any order; in ascending disjoint files the first one that ends at or after the key |
| `Lookup.SeekTable` | Lumiere_iOS/Pods/leveldb-library/db/version_set.cc:263-276 | the first entry at or after the lookup key; in a sorted table it decides exactly the newest visible entry |
| `Lookup.OverlappingNewestFirst` | Lumiere_iOS/Pods/leveldb-library/db/version_set.cc:345-361 | exactly the level-0 files whose range holds the key, newest file number first |
| `Lookup.SearchLevel0` | Lumiere_iOS/Pods/leveldb-library/db/version_set.cc:340-365 | the answer of the first overlapping file that has one; when newer files have higher numbers that is the newest visible entry of the whole level |
| `Lookup.SearchLevel` | Lumiere_iOS/Pods/leveldb-library/db/version_set.cc:366-388 | the answer of one binary-searched file; it decides a disjoint level |
| `Lookup.VersionGet` | Lumiere_iOS/Pods/leveldb-library/db/version_set.cc:326-421 | for any version the answer of the first level that has one; in a layered version the newest visible entry over all its entries |
| `Lookup.LayersDecide` | Lumiere_iOS/Pods/leveldb-library/db/version_set.cc:326-421 | in every layered version the code's answer is the newest visible entry |
| `Selection.SomeFileOverlapsRange` | Lumiere_iOS/Pods/leveldb-library/db/version_set.cc:122-155 | true exactly when some file meets the user-key range, by scan for overlapping files and by binary search for disjoint ones |
| `Selection.PickLevelForMemTableOutput` | Lumiere_iOS/Pods/leveldb-library/db/version_set.cc:491-516 | exactly the level the table reaches by sinking: 0 if level 0 overlaps it, otherwise one level deeper, up to 2, as long as nothing there overlaps it and the files overlapping it below that are at most ten file sizes; above 0 nothing at that level or above meets the range |
| `Selection.PickedMeans` | Lumiere_iOS/Pods/leveldb-library/db/version_set.cc:491-516 | that level in numbers: ten file sizes, at most level 2, and why it is not deeper |
| `Selection.GetOverlappingInputs` | Lumiere_iOS/Pods/leveldb-library/db/version_set.cc:519-559 | the restarting level-0 search ends with the least overlap-closed set of files, and with exactly the overlapping files, in order, on deeper levels |
| `Selection.FindSmallestBoundaryFile` | Lumiere_iOS/Pods/leveldb-library/db/version_set.cc:1344-1362 | the earliest file that continues the given user key, or none if there is none |
| `Selection.AddBoundaryInputs` | Lumiere_iOS/Pods/leveldb-library/db/version_set.cc:1378-1401 | the result is the least set with the given files that holds every file of the level continuing the last user key of one of its files |
| `Selection.SetupOtherInputs` | Lumiere_iOS/Pods/leveldb-library/db/version_set.cc:1403-1462 | the inputs are exactly the least closed set that holds the chosen files, with the next level's files in its hull; or, exactly when there are such next-level files and the level's files in the common hull, closed again, are more in number, stay below the size limit together with the next-level inputs and meet equally many next-level files, those larger sets |
| `Selection.GrowExactly` | Lumiere_iOS/Pods/leveldb-library/db/version_set.cc:1417-1447 | the expansion as an if and only if over sets of files, whichever lists represent them |
| `Selection.PickCompaction` | Lumiere_iOS/Pods/leveldb-library/db/version_set.cc:1270-1322 | exactly the inputs that SetupOtherInputs makes of the first file that ends past the compaction pointer, or of the first of the level when there is no pointer or no such file |
| `Selection.CompactFile` | Lumiere_iOS/Pods/leveldb-library/db/version_set.cc:1304-1318 | exactly the inputs made of the chosen file, widened on level 0 to all files that overlap it directly or through others |
| `Selection.CompactRange` | Lumiere_iOS/Pods/leveldb-library/db/version_set.cc:1464-1495 | exactly the inputs made of the files that overlap a manual range, or on deeper levels of as many of them as the size limit allows; nothing exactly when no file overlaps |
| `Selection.FilesWithinIs` | Lumiere_iOS/Pods/leveldb-library/db/version_set.cc:1474-1489 | of the files in a manual range as many are taken as bring their total to the limit, the last of them included, and all when they never reach it |
| `Compaction.LevelCursors.IsBaseLevelForKey` | Lumiere_iOS/Pods/leveldb-library/db/version_set.cc:1533-1552 | forward-only cursors, asked in ascending key order, answer exactly whether no deeper file's range holds the key |
| `Compaction.LastSequenceTest` | Lumiere_iOS/Pods/leveldb-library/db/db_impl.cc:928-950 | comparing only with the previous entry decides exactly whether some newer entry at or below the smallest snapshot hides this one |
| `Compaction.DropRule.Drop` | Lumiere_iOS/Pods/leveldb-library/db/db_impl.cc:930-967 | the running state drops exactly the hidden entries and the deletions with nothing deeper |
| `Compaction.KeptExactly` | Lumiere_iOS/Pods/leveldb-library/db/db_impl.cc:930-967 | an entry is kept unless a newer one of its user key lies at or below the smallest snapshot, or it is a deletion at or below it and no file below the output level has the user key in its range |
| `Compaction.OneBelowSmallest` | Lumiere_iOS/Pods/leveldb-library/db/db_impl.cc:930-967 | of each user key at most one entry at or below the smallest snapshot is kept |
| `Compaction.DoCompactionWork` | Lumiere_iOS/Pods/leveldb-library/db/db_impl.cc:878-1015 | the output files, concatenated, are exactly the kept entries in order, each sealed, numbered in sequence and of the size its builder reports; no file but at its end reaches the size limit or has a stop before its next entry, and every file but the last ends because it reached the limit or a stop came before the next kept entry |
| `Compaction.FlatDisjoint` | Lumiere_iOS/Pods/leveldb-library/db/db_impl.cc:811-858 | cutting a sorted sequence into sealed files gives well-formed, disjoint, ascending files |
| `Compaction.DropRuleExact` | Lumiere_iOS/Pods/leveldb-library/db/db_impl.cc:930-963 | every key reads the same at every snapshot from the smallest on, if and only if no dropped deletion uncovers a value left at the next level |
| `Compaction.UncoveredReadChanges` | Lumiere_iOS/Pods/leveldb-library/db/db_impl.cc:950-963 | in the remaining case the reading at the smallest snapshot changes from absent to a value |
| `Steps.FlushFits` | Lumiere_iOS/Pods/leveldb-library/db/db_impl.cc:491-533 | a fresh memtable table respects the layering at the picked level |
| `Steps.MoveFits` | Lumiere_iOS/Pods/leveldb-library/db/db_impl.cc:715-731 | moving a lone file down respects the layering |
| `Steps.CompactionFits` | Lumiere_iOS/Pods/leveldb-library/db/db_impl.cc:860-876 | output files respect the layering in place of the inputs |
| `Steps.FittingEditKeepsLayers` | Lumiere_iOS/Pods/leveldb-library/db/version_set.cc:695-739 | an edit whose files fit pairwise keeps the whole layering invariant |
| `Steps.SplitsOff` | Lumiere_iOS/Pods/leveldb-library/db/version_set.cc:1533-1552 | whatever is older than an input, and not left at the next level, lies deeper than both input levels, also after newer entries have come |
| `Late.LateFits` | Lumiere_iOS/Pods/leveldb-library/db/db_impl.cc:860-876 | after flushes beside a compaction its outputs fit into the version as it has become if and only if every file that reached their level meanwhile lies wholly before or wholly after every output |
| `Late.LateLayers` | Lumiere_iOS/Pods/leveldb-library/db/db_impl.cc:860-876 | installing them keeps the layering under exactly that condition |
| `Store.StepKeepsInv` | Lumiere_iOS/Pods/leveldb-library/db/db_impl.cc:535-566 | every write, memtable switch, flush, move, compaction and snapshot step keeps the invariant |
| `Store.RunsKeepInv` | Lumiere_iOS/Pods/leveldb-library/db/db_impl.cc:688-767 | after every run with compactions as single steps: levels 1 and deeper sorted and disjoint, and for one user key every entry in a higher layer newer than every entry in a lower one |
| `Store.CompactionExact` | Lumiere_iOS/Pods/leveldb-library/db/db_impl.cc:878-1015 | one compaction step keeps every reading from the smallest live snapshot on if and only if it is safe |
| `Store.OnePerKeyLeft` | Lumiere_iOS/Pods/leveldb-library/db/db_impl.cc:878-967 | the outputs of a compaction step hold at most one entry of each user key that all live snapshots see |
| `Store.OldestInUse` | Lumiere_iOS/Pods/leveldb-library/db/db_impl.cc:890-894 | the compaction's snapshot is the newest sequence number that neither any live snapshot nor the last write precedes |
| `Store.BoundaryClosedIsSafe` | Lumiere_iOS/Pods/leveldb-library/db/version_set.cc:1403-1462 | a compaction is safe whenever no file left at the next level continues the last user key of an input there: the condition AddBoundaryInputs would give if applied to that level |
| `Store.RunsReadHistory` | Lumiere_iOS/Pods/leveldb-library/db/db_impl.cc:1100-1136 | after every run of safe compactions each key, at each live snapshot and at the present, reads the newest write up to that point |
| `Store.Get` | Lumiere_iOS/Pods/leveldb-library/db/db_impl.cc:1100-1145 | memtable, immutable memtable, then the version, each believed if it answers; under the invariant the reading of the whole contents |
| `Nested.LayeredExactly` | Lumiere_iOS/Pods/leveldb-library/db/db_impl.cc:878-1015 | with flushes inside compactions: the files stay layered throughout a run if and only if every compaction, when installed, is clear of the files flushed to its output level meanwhile |
| `Nested.ReadingsExact` | Lumiere_iOS/Pods/leveldb-library/db/db_impl.cc:930-963 | whatever was written and flushed meanwhile, a compaction keeps every reading of the stored entries from its snapshot on if and only if it uncovers nothing |
| `Nested.RunsFindHistory` | Lumiere_iOS/Pods/leveldb-library/db/db_impl.cc:1100-1145 | after every run whose compactions are clear and safe the code finds, at each live snapshot and at the present, the newest write of the key up to that point |
| `LostKey.WrittenKeyIsLost` | Lumiere_iOS/Pods/leveldb-library/db/db_impl.cc:906-918 | a run from the empty store after which the key written last is stored and not found: its memtable was flushed beside a running compaction to the level of the output, which covers it |
| `LostKey.TheCodeTakesTheseSteps` | Lumiere_iOS/Pods/leveldb-library/db/version_set.cc:491-516 | every flush of that run goes to the level PickLevelForMemTableOutput picks, the inputs are those of a manual compaction of the level, and the output is what DoCompactionWork emits |
| `Resurrection.DeletedValueReturns` | Lumiere_iOS/Pods/leveldb-library/db/version_set.cc:1403-1433 | a run from the empty store, with byte-string keys, in which a compaction of levels 2 and 3 makes a deleted key readable again, because AddBoundaryInputs is not applied to the next level |
| `Resurrection.TheCodeTakesTheseSteps` | Lumiere_iOS/Pods/leveldb-library/db/version_set.cc:491-516 | every flush of that run goes to the level PickLevelForMemTableOutput picks, every compaction in it takes the only inputs that SetupOtherInputs can end with, and writes the files that DoCompactionWork emits |
| `Background.Drain` | Lumiere_iOS/Pods/leveldb-library/db/version_set.cc:1237-1268 | reading the merging iterator to its end gives the sorted union of the input tables |
| `Background.RunCompaction` | Lumiere_iOS/Pods/leveldb-library/db/db_impl.cc:860-1048 | merging, dropping, splitting and installing on closed inputs is one compaction step of the store, with its files cut exactly where the size limit or a stop is due |
| `Background.MoveFile` | Lumiere_iOS/Pods/leveldb-library/db/db_impl.cc:715-731 | the trivial move is one move step of the store |
| `Background.BackgroundCompaction` | Lumiere_iOS/Pods/leveldb-library/db/db_impl.cc:688-746 | choosing inputs, by size or for a manual range, and then moving or rewriting is a step of the store and keeps its invariant; the step takes exactly the inputs made of the manual range or of the file past the compaction pointer; it moves exactly when it is not manual, one file is taken, none of the next level, and the grandparents are small; nothing happens exactly when there is nothing to compact |
| `Background.CompactMemTable` | Lumiere_iOS/Pods/leveldb-library/db/db_impl.cc:491-566 | flushing is a flush step of the store at exactly the picked level and keeps the invariant |
| `Manifest.MergeLevel` | Lumiere_iOS/Pods/leveldb-library/db/version_set.cc:695-739 | merging base and added files leaves exactly the undeleted ones in file order |
| `Manifest.Builder.Apply` | Lumiere_iOS/Pods/leveldb-library/db/version_set.cc:650-692 | the pending file sets become the old ones without the deleted and with the added files |
| `Manifest.Builder.SaveTo` | Lumiere_iOS/Pods/leveldb-library/db/version_set.cc:695-754 | each level lists exactly the pending files, by smallest key and then number |
| `Manifest.LogAndApply` | Lumiere_iOS/Pods/leveldb-library/db/version_set.cc:801-871 | the new version is the current one edited |
| `Manifest.InstallIsEdit` | Lumiere_iOS/Pods/leveldb-library/db/version_set.cc:801-871 | an installed edit is the edit that the store's steps assume |
| `Manifest.Recover` | Lumiere_iOS/Pods/leveldb-library/db/version_set.cc:924-995 | one builder given all decoded edits produces the same file lists as a new version after each edit, when each (level, number) is added at most once |
| `Manifest.OrderedListUnique` | Lumiere_iOS/Pods/leveldb-library/db/version_set.cc:590-605 | the file order determines a level's list from its set of files |
| `Recovery.WriteSnapshot` | Lumiere_iOS/Pods/leveldb-library/db/version_set.cc:1088-1116 | the record encodes the comparator, no numbers, exactly the compaction pointers that are set, by level, and exactly the files of the version |
| `Recovery.SnapshotInstalls` | Lumiere_iOS/Pods/leveldb-library/db/version_set.cc:1088-1116 | installing the snapshot record into the empty version gives exactly the version it was written from |
| `Recovery.RecoverRecords` | Lumiere_iOS/Pods/leveldb-library/db/version_set.cc:886-1010 | for records of edits that add each (level, number) at most once, and malformed ones: succeeds exactly when all decode, every comparator name given is the expected one and the three numbers are given; then one builder gives the version that installing the edits one by one had reached, and each of the four numbers is what the last edit that gives it says, and absent if none does |
| `Recovery.CountersCarry` | Lumiere_iOS/Pods/leveldb-library/db/version_set.cc:949-967 | after any edits a number is n exactly when some edit gives n and no later one gives any |
| `Recovery.WriteManifest` | Lumiere_iOS/Pods/leveldb-library/db/version_set.cc:801-871 | the manifest's bytes are the log of a snapshot record and of one record per edit |
| `Recovery.Reopen` | Lumiere_iOS/Pods/leveldb-library/db/version_set.cc:886-1010 | a manifest cut at any byte recovers exactly the version, file list by file list, that the last edit wholly before the cut had installed, and each number as the last whole edit that gives it says; it succeeds exactly when the whole edits give the three numbers |
| `EditCodec.FieldsBack` | Lumiere_iOS/Pods/leveldb-library/db/version_edit.cc:41-205 | parsing the encoded fields returns exactly those fields in order |
| `EditCodec.DecodeFrom` | Lumiere_iOS/Pods/leveldb-library/db/version_edit.cc:107-205 | for every input: success exactly on well-formed records, and then the cleared edit with all fields applied; compaction pointers are not cleared |
| `EditCodec.EncodeTo` | Lumiere_iOS/Pods/leveldb-library/db/version_edit.cc:41-85 | the bytes encode fields that rebuild the edit, in the order of the source: comparator, numbers, pointers, deleted files, new files |
| `EditCodec.FieldBytes` | Lumiere_iOS/Pods/leveldb-library/db/version_edit.cc:14-85 | the bytes of each kind of field: its tag and its varints and slices |
| `EditCodec.FileFieldBytes` | Lumiere_iOS/Pods/leveldb-library/db/version_edit.cc:74-84 | the bytes of a new file: tag 7, level, number, size, smallest and largest key |
| `EditCodec.RoundTrip` | Lumiere_iOS/Pods/leveldb-library/db/version_edit.cc:26-205 | encoding and decoding returns the edit, preceded by the target's old compaction pointers; equal to the original exactly when the target had none |
| `Merger.MergingIterator.Next` | Lumiere_iOS/Pods/leveldb-library/table/merger.cc:55-79 | moves exactly one position forward in the sorted union, after any earlier direction |
| `Merger.MergingIterator.Prev` | Lumiere_iOS/Pods/leveldb-library/table/merger.cc:81-108 | moves exactly one position back, after any earlier direction; invalid before the first |
| `Merger.MergingIterator.SeekTo` | Lumiere_iOS/Pods/leveldb-library/table/merger.cc:47-53 | stands at the first entry of the union at or after the target |
| `Merger.MergingIterator.SeekToLast` | Lumiere_iOS/Pods/leveldb-library/table/merger.cc:39-45 | stands at the last entry of the union |
| `Merger.SmallestIsNext` | Lumiere_iOS/Pods/leveldb-library/table/merger.cc:148-161 | the smallest current child key is the next of the union |
| `Merger.LargestIsPrevious` | Lumiere_iOS/Pods/leveldb-library/table/merger.cc:163-176 | the largest current child key is the previous of the union |
| `Iteration.LiveIsTheMap` | Lumiere_iOS/Pods/leveldb-library/db/db_iter.cc:34-40 | the list of shown entries holds exactly the user keys and values readable at the snapshot |
| `Iteration.LiveSorted` | Lumiere_iOS/Pods/leveldb-library/db/db_iter.cc:34-40 | in strictly ascending user-key order |
| `Iteration.DBIter.Next` | Lumiere_iOS/Pods/leveldb-library/db/db_iter.cc:141-198 | moves exactly one position forward in that list, from either direction |
| `Iteration.DBIter.Prev` | Lumiere_iOS/Pods/leveldb-library/db/db_iter.cc:200-267 | moves exactly one position back, from either direction; invalid before the first |
| `Iteration.DBIter.Seek` | Lumiere_iOS/Pods/leveldb-library/db/db_iter.cc:269-281 | stands at the first live key at or after the target |
| `Iteration.DBIter.SeekToFirst` | Lumiere_iOS/Pods/leveldb-library/db/db_iter.cc:283-292 | stands at the first live key |
| `Iteration.DBIter.SeekToLast` | Lumiere_iOS/Pods/leveldb-library/db/db_iter.cc:294-299 | stands at the last live key |
| `Iteration.DBIter.Current` | Lumiere_iOS/Pods/leveldb-library/db/db_iter.cc:64-71 | key and value shown are those at the position in the list |
| `Log.Writer.AddRecord` | Lumiere_iOS/Pods/leveldb-library/db/log_writer.cc:34-80 | the file grows by exactly the fragments of the record at the current position, also for an empty record |
| `Log.Reader.ReadRecord` | Lumiere_iOS/Pods/leveldb-library/db/log_reader.cc:56-174 | buffered block reading returns what parsing the whole file from the current position gives |
| `Log.CrashTruncation` | Lumiere_iOS/Pods/leveldb-library/db/log_reader.cc:56-271 | for every list of records and every cut the reader returns exactly the records wholly inside, in order, and reports nothing |
| `Log.RoundTrip` | Lumiere_iOS/Pods/leveldb-library/db/log_writer.cc:34-108 | an uncut log gives back all records |
| `LogRuns.ReadsExactlyTheRuns` | Lumiere_iOS/Pods/leveldb-library/db/log_reader.cc:56-271 | for every file, whole, cut or corrupted: the records returned are exactly the runs of fragments in it, full ones and first ones continued up to a last one, in order; the reports are those of unreadable physical records and one for each fragment out of place |
| `LogRuns.PhysicalRecord` | Lumiere_iOS/Pods/leveldb-library/db/log_reader.cc:189-271 | a physical record is accepted exactly when its two length bytes fit the rest of the block and its checksum is that of type and payload; when it is skipped or ends the file without a report |
| `LogRuns.FragmentPlace` | Lumiere_iOS/Pods/leveldb-library/db/log_writer.cc:41-108 | a fragment is preceded by zeros exactly when fewer than seven bytes of the 32768 are left, and lies within one block; the four type codes |
| `Log.WholeIs` | Lumiere_iOS/Pods/leveldb-library/db/log_writer.cc:34-108 | the records counted as whole are those, and only those, whose bytes lie inside the cut |
| `Log.ReadFile` | Lumiere_iOS/Pods/leveldb-library/db/log_reader.cc:56-174 | reading record by record until the end returns what the specification of the format gives |
| `Log.WriteAll` | Lumiere_iOS/Pods/leveldb-library/db/log_writer.cc:34-80 | writing records one after the other produces the specified file |
| `Log.FailedAppendHides` | Lumiere_iOS/Pods/leveldb-library/db/log_writer.cc:34-108 | after any records, and for an append that fails after any of its bytes: unless what is appended to the block later happens to carry a right checksum there, the reader returns exactly the records before the failure |
| `Log.FailedPayloadHides` | Lumiere_iOS/Pods/leveldb-library/db/log_writer.cc:82-108 | when the header and part of the payload of a fragment were written and enough is appended later, the checksum of what then stands there decides: if it differs, exactly the records before are returned and one corruption is reported, or two in the middle of a record |
| `Log.FailedAppendExample` | Lumiere_iOS/Pods/leveldb-library/db/log_writer.cc:82-108 | a concrete file in which a record appended successfully after a failed append is not found |
| `Coding.MaskRoundTrip` | Lumiere_iOS/Pods/leveldb-library/util/crc32c.h:29-38 | unmasking undoes masking |
| `Coding.MaskRotates` | Lumiere_iOS/Pods/leveldb-library/util/crc32c.h:22-33 | the mask of a checksum is the checksum rotated right by 15 bits plus a constant |
| `Coding.Fixed32RoundTrip` | Lumiere_iOS/Pods/leveldb-library/util/coding.cc:9-18 | decoding undoes the little-endian encoding |
| `Coding.Fixed32Bytes` | Lumiere_iOS/Pods/leveldb-library/util/coding.cc:9-18 | the four bytes are the digits of the number, least significant first |
| `Coding.VarintRoundTrip` | Lumiere_iOS/Pods/leveldb-library/util/coding.cc:47-96 | decoding reads back every value that fits and how many bytes it took |
| `Coding.VarintLength` | Lumiere_iOS/Pods/leveldb-library/util/coding.cc:47-96 | a varint takes as many bytes as the number has digits to the base 128, and no more |
| `Coding.GetVarintPtr` | Lumiere_iOS/Pods/leveldb-library/util/coding.cc:112-157 | the shifting loop computes the positional value, and fails on a cut or overlong varint |
| `GroupCommit.BuildBatchGroup` | Lumiere_iOS/Pods/leveldb-library/db/db_impl.cc:1260-1306 | the longest group of waiting writers with no sync writer behind a non-sync leader and no more bytes than 1 MB, or 128 KB above the leader's when those are at most 128 KB; its operations in queue order |
| `GroupCommit.InsertInto` | Lumiere_iOS/Pods/leveldb-library/db/write_batch.cc:114-137 | the memtable receives the operations in order under consecutive sequence numbers |
| `Batch.BatchRoundTrip` | Lumiere_iOS/Pods/leveldb-library/db/write_batch.cc:42-109 | every batch reads back: operations, count and sequence number |
| `Batch.BatchBytes` | Lumiere_iOS/Pods/leveldb-library/db/write_batch.cc:5-14 | the layout: eight bytes of sequence number and four of count, least significant first, then the operations |
| `Batch.OpBytes` | Lumiere_iOS/Pods/leveldb-library/db/write_batch.cc:98-109 | the bytes of a put and of a deletion |
| `Batch.Iterate` | Lumiere_iOS/Pods/leveldb-library/db/write_batch.cc:42-80 | for any bytes: the operations up to the first malformed one, and success exactly when none is malformed and the count agrees |
| `Batch.CountMatters` | Lumiere_iOS/Pods/leveldb-library/db/write_batch.cc:42-80 | whatever the twelve header bytes are, the operations are handed out, and the batch is well-formed exactly when its count is theirs |
| `Batch.EntryOfOp` | Lumiere_iOS/Pods/leveldb-library/db/write_batch.cc:114-137 | what each put and deletion of a batch becomes in the memtable: user key, sequence number, kind and value |
| `Batch.AppendJoins` | Lumiere_iOS/Pods/leveldb-library/db/write_batch.cc:144-148 | appending the contents of one batch to another encodes the joined operations |
| `Batch.RecoverLogFile` | Lumiere_iOS/Pods/leveldb-library/db/db_impl.cc:371-481 | for any file: with paranoid checks it succeeds exactly when the reader reports nothing and every record is a well-formed batch, without them always; then the memtables written out hold together what every record holds, in order, each written at the first batch that fills it and the last at the end, and the last sequence is the largest claimed |
| `Batch.RecoverCutLog` | Lumiere_iOS/Pods/leveldb-library/db/db_impl.cc:371-481 | a log of batches cut at any byte is recovered without error to tables with exactly the entries of the batches wholly before the cut, in order, and the last sequence is the largest among them, or zero when there are none; where batches may be empty, the largest claimed |
| `Durability.StepKeepsInv` | Lumiere_iOS/Pods/leveldb-library/db/db_impl.cc:1185-1256 | every step of writers, log I/O (also an append that fails part-way), background worker, file removal and crash keeps the invariant |
| `Durability.RunsKeepInv` | Lumiere_iOS/Pods/leveldb-library/db/db_impl.cc:1185-1256 | and so does every run |
| `Durability.FinishTells` | Lumiere_iOS/Pods/leveldb-library/db/db_impl.cc:1228-1253 | a group leaves the queue together, every writer of it gets the one status, nobody else is touched, and exactly its operations' sequence numbers are used up once its log record was begun |
| `Progress.NeverStuck` | Lumiere_iOS/Pods/leveldb-library/db/db_impl.cc:1308-1364 | no deadlock: from every reachable state, whatever the background worker is in the middle of, whatever failed, and whichever non-empty memtables count as full, at most 31 steps of the writers and the worker answer the first waiting writer |
| `Progress.AnswerComes` | Lumiere_iOS/Pods/leveldb-library/db/db_impl.cc:1185-1256 | each of these steps lowers a bound on how many are left, through the memtable switch and a flush that may have to wait for a compaction to be installed |
| `Durability.AppliedOnceInOrder` | Lumiere_iOS/Pods/leveldb-library/db/db_impl.cc:1185-1256 | the memtables were given the batches of the writers acknowledged OK, each once, in queue order, and nothing else but the group about to be acknowledged, under ascending sequence numbers |
| `Durability.NumbersUnused` | Lumiere_iOS/Pods/leveldb-library/db/db_impl.cc:1200-1207 | a group's sequence numbers lie above everything stored |
| `Durability.FilesAreKept` | Lumiere_iOS/Pods/leveldb-library/db/db_impl.cc:223-278 | in every reachable state every table of the current version, of versions in use, of the manifest, of the version a running compaction began with, and every finished output exists, and so do the logs of both memtables |
| `Durability.ObsoleteGone` | Lumiere_iOS/Pods/leveldb-library/db/db_impl.cc:223-278 | after a flush or compaction is installed without a background error, the tables on disk are exactly those that were there and that the version, a version in use, a pending output or a running compaction needs, and the logs exactly those of the memtables; after an error nothing is removed |
| `DurableReads.ReadsSurviveCrash` | Lumiere_iOS/Pods/leveldb-library/db/db_impl.cc:1216-1222 | in every reachable state, whatever unsynced log tails a crash cuts, the newest entry of every key among those left on disk, from the last sequence of the manifest on, is the newest of the surviving writes; these include every acknowledged sync write (all acknowledged ones if nothing is cut) whose log had no failed append before it, and nothing that was not written |
| `DurableReads.RunningReads` | Lumiere_iOS/Pods/leveldb-library/db/db_impl.cc:535-566 | in every reachable state the newest entry of every key among those stored, at the present and back to the horizon of the compactions, is the newest of the writes that include all acknowledged ones |
| `DurableReads.DropRuleMayCommit` | Lumiere_iOS/Pods/leveldb-library/db/db_impl.cc:930-963 | outputs that follow the drop rule meet the condition under which that state machine lets a compaction commit if and only if they uncover nothing, given how its inputs split off |
| `Levelled.CommitExact` | Lumiere_iOS/Pods/leveldb-library/db/db_impl.cc:930-963 | in every reachable state of the database with its files at levels the split is given, so that outputs of the drop rule may be committed if and only if they uncover nothing |
| `Levelled.RunningFinds` | Lumiere_iOS/Pods/leveldb-library/db/db_impl.cc:1100-1145 | in every reachable state, after any crashes, provided no compaction was committed over a file flushed to its output level meanwhile: the code's lookup finds, at the present and back to the horizon, the newest of the writes applied and not lost, all acknowledged ones among them |
| `Levelled.ReopenedFinds` | Lumiere_iOS/Pods/leveldb-library/db/db_impl.cc:280-369 | after a crash in any such state the lookup in the reopened database finds for every key the newest of the surviving writes |
| `Levelled.RewriteExact` | Lumiere_iOS/Pods/leveldb-library/db/db_impl.cc:860-876 | there too, committing the outputs keeps the layering if and only if they are clear |
| `Durability.PromisesGrow` | Lumiere_iOS/Pods/leveldb-library/db/db_impl.cc:1185-1256 | acknowledged entries are only ever given up by a crash that cuts a log; those of sync writers never |
| `Durability.RecoveredWithinContents` | Lumiere_iOS/Pods/leveldb-library/db/db_impl.cc:371-489 | reopening finds nothing but what readers saw and the group in flight |
| `Durability.CleanedKeeps` | Lumiere_iOS/Pods/leveldb-library/db/db_impl.cc:223-278 | removing obsolete files keeps every live table whole |
| `SkipList.SkipList.FindGreaterOrEqual` | Lumiere_iOS/Pods/leveldb-library/db/skiplist.h:261-281 | the first node at or after the key, and the predecessor on every level |
| `SkipList.SkipList.FindLessThan` | Lumiere_iOS/Pods/leveldb-library/db/skiplist.h:284-303 | the last node before the key |
| `SkipList.SkipList.Contains` | Lumiere_iOS/Pods/leveldb-library/db/skiplist.h:371-378 | exactly whether the key is in the list |
| `SkipList.SkipList.Insert` | Lumiere_iOS/Pods/leveldb-library/db/skiplist.h:337-368 | afterwards the list holds the old keys and the new one, every level a sorted sublist of the one below |
| `SkipList.LinkKeepsOk` | Lumiere_iOS/Pods/leveldb-library/db/skiplist.h:361-367 | each single link of an insertion leaves every level sorted, linked and nested |
| `SkipList.ConcurrentSearch` | Lumiere_iOS/Pods/leveldb-library/db/skiplist.h:261-281 | a search interleaved step by step with insertions finds every key that was there when it began, or a smaller one inserted meanwhile |
| `Cache.HandleTable.FindPointer` | Lumiere_iOS/Pods/leveldb-library/util/cache.cc:114-120 | the slot found holds the only entry with the key, or there is none |
| `Cache.HandleTable.Lookup` | Lumiere_iOS/Pods/leveldb-library/util/cache.cc:74-76 | the entry with the key, exactly when there is one |
| `Cache.HandleTable.Insert` | Lumiere_iOS/Pods/leveldb-library/util/cache.cc:78-92 | takes the place of the entry with the same key, also across a resize; the table never holds more entries than buckets |
| `Cache.HandleTable.Remove` | Lumiere_iOS/Pods/leveldb-library/util/cache.cc:94-102 | removes exactly the entry with the key |
| `Cache.HandleTable.Resize` | Lumiere_iOS/Pods/leveldb-library/util/cache.cc:122-146 | rehashing keeps the set of entries and their count; the length becomes the least power of two from four on that is not below the count |
| `Cache.LRUCache.Unref` | Lumiere_iOS/Pods/leveldb-library/util/cache.cc:225-237 | a handle that nobody counts on is deleted, once; one that only the cache holds becomes the newest idle one |
| `Cache.LRUCache.FinishErase` | Lumiere_iOS/Pods/leveldb-library/util/cache.cc:307-316 | the handle leaves lists, usage and cache, and is deleted unless a client holds it |
| `Cache.LRUCache.Lookup` | Lumiere_iOS/Pods/leveldb-library/util/cache.cc:252-259 | finds the cached handle of the key and counts one more holder |
| `Cache.LRUCache.Release` | Lumiere_iOS/Pods/leveldb-library/util/cache.cc:261-264 | one holder less; deleted exactly when that was the last reference |
| `Cache.LRUCache.Erase` | Lumiere_iOS/Pods/leveldb-library/util/cache.cc:318-321 | exactly the handle of the key leaves the cache |
| `Cache.LRUCache.Insert` | Lumiere_iOS/Pods/leveldb-library/util/cache.cc:266-303 | the new handle replaces the key's old one, the oldest idle handles are evicted as far as needed, and usage is within capacity or nothing idle is left |
| `Cache.LRUCache.Prune` | Lumiere_iOS/Pods/leveldb-library/util/cache.cc:323-333 | all idle handles are deleted, oldest first, and no other |
| `Cache.EvictedLeast` | Lumiere_iOS/Pods/leveldb-library/util/cache.cc:294-301 | eviction stops as soon as the rest fits, and not before |
| `Block.BlockBuilder.Add` | Lumiere_iOS/Pods/leveldb-library/table/block_builder.cc:72-105 | the layout grows by the entry; exactly after every interval of entries a restart point stores the key whole, elsewhere all that the key has in common with the previous one is left out |
| `Block.BlockBuilder.Finish` | Lumiere_iOS/Pods/leveldb-library/table/block_builder.cc:62-70 | the bytes are a block with that layout |
| `Block.BuildAndWalk` | Lumiere_iOS/Pods/leveldb-library/table/block_builder.cc:62-105 | for every entry list and every restart interval, building a block and walking it returns the list |
| `Block.EntryDecoded` | Lumiere_iOS/Pods/leveldb-library/table/block.cc:54-77 | at each entry's offset the header is read back, by the fast path or the slow one |
| `Block.OpenBlockOk` | Lumiere_iOS/Pods/leveldb-library/table/block.cc:19-39 | the trailer gives back the restart array |
| `Block.Iter.Next` | Lumiere_iOS/Pods/leveldb-library/table/block.cc:137-140 | moves to the next entry |
| `Block.Iter.Prev` | Lumiere_iOS/Pods/leveldb-library/table/block.cc:142-161 | moves to the previous entry by rescanning from a restart point; invalid before the first |
| `Block.Iter.Seek` | Lumiere_iOS/Pods/leveldb-library/table/block.cc:163-201 | binary search on restart points and a scan stand at the first key not before the target |
| `Block.Iter.SeekToLast` | Lumiere_iOS/Pods/leveldb-library/table/block.cc:208-213 | stands at the last entry |
| `Block.Iter.ParseNextKey` | Lumiere_iOS/Pods/leveldb-library/table/block.cc:224-251 | rebuilds the next entry's key from the previous one and its delta |
| `Bloom.CreateFilter` | Lumiere_iOS/Pods/leveldb-library/util/bloom.cc:28-54 | the filter's length follows from the number of keys, at least 64 bits; its last byte is the number of probes; and a bit is set exactly when it is a probe of some key |
| `Bloom.MatchesExactly` | Lumiere_iOS/Pods/leveldb-library/util/bloom.cc:28-80 | a filter matches a key exactly when every probe of it is one of a key that the filter was made for |
| `Bloom.ProbeIs` | Lumiere_iOS/Pods/leveldb-library/util/bloom.cc:43-53 | probe j is the hash plus j times its rotation, modulo 2^32 |
| `Bloom.DeltaRotates` | Lumiere_iOS/Pods/leveldb-library/util/bloom.cc:47 | the step is the hash rotated right by 17 bits |
| `Bloom.KeyMayMatch` | Lumiere_iOS/Pods/leveldb-library/util/bloom.cc:56-80 | true exactly when all probes are set, or the encoding is unknown |
| `FilterBlock.FilterBlockBuilder.StartBlock` | Lumiere_iOS/Pods/leveldb-library/table/filter_block.cc:21-27 | filters up to the block's 2 KB range are generated and no key changes its range |
| `FilterBlock.FilterBlockBuilder.GenerateFilter` | Lumiere_iOS/Pods/leveldb-library/table/filter_block.cc:51-75 | the pending keys become one filter, of exactly their probes |
| `FilterBlock.FilterBlockBuilder.Finish` | Lumiere_iOS/Pods/leveldb-library/table/filter_block.cc:35-49 | the finished bytes say yes to a key exactly when each of its probes is one of a key added for the same 2048 bytes of the file, or when that range has no filter; so to every key added |
| `FilterBlock.BlockKeyMayMatch` | Lumiere_iOS/Pods/leveldb-library/table/filter_block.cc:90-104 | computes the answer of the filter for the block's range; errors match |
| `Separator.FindShortestSeparator` | Lumiere_iOS/Pods/leveldb-library/util/comparator.cc:29-50 | the first byte that differs is raised by one and the rest cut off exactly when that stays below the limit; otherwise the start key |
| `Separator.FindShortSuccessor` | Lumiere_iOS/Pods/leveldb-library/util/comparator.cc:52-63 | the first byte that is not 0xff is raised by one and the rest cut off; the key itself when there is none |
| `Separator.InternalSeparator` | Lumiere_iOS/Pods/leveldb-library/db/dbformat.cc:69-86 | the separator of the user keys with the largest trailer, exactly when it is shorter than the start and above it; otherwise the start key; always at or after the start key and before the limit |
| `Separator.InternalSuccessor` | Lumiere_iOS/Pods/leveldb-library/db/dbformat.cc:88-101 | the successor of the user key with the largest trailer, exactly when it is shorter and above; otherwise the key |
| `Separator.InternalOrder` | Lumiere_iOS/Pods/leveldb-library/db/dbformat.cc:51-67 | the internal comparator is a strict weak order |
| `Bytewise.KeyOrder` | Lumiere_iOS/Pods/leveldb-library/db/dbformat.cc:51-67 | comparing internal keys as bytes is comparing the keys they stand for |
| `Bytewise.SeekKeyIs` | Lumiere_iOS/Pods/leveldb-library/db/dbformat.cc:121-138 | the bytes of a lookup key stand for the user key at the snapshot |
| `Bytewise.TextIs` | Lumiere_iOS/Pods/leveldb-library/db/dbformat.cc:51-67 | values are distinct texts exactly when their bytes differ |
| `Table.InternalGet` | Lumiere_iOS/Pods/leveldb-library/table/table.cc:216-244 | never misses: when the first stored key at or after k has k's user key it is delivered, and whatever is delivered is the first stored key at or after k |
| `Table.NothingMissed` | Lumiere_iOS/Pods/leveldb-library/table/table_builder.cc:102-110 | when the indexed block has nothing at or after k, nothing at or after k in the table has k's user key |
| `Table.NotFiltered` | Lumiere_iOS/Pods/leveldb-library/table/table.cc:222-228 | a filter that rejects k hides no entry of its user key |
| `Table.HandleRoundTrip` | Lumiere_iOS/Pods/leveldb-library/table/table_builder.cc:105-107 | decoding a block handle gives back offset and size |
| `Table.TableBuilder.Add` | Lumiere_iOS/Pods/leveldb-library/table/table_builder.cc:94-123 | the entry joins the table; the pending index entry gets a separator, the filter the key; the block is written exactly when its estimated size reaches the block size |
| `Table.TableBuilder.Flush` | Lumiere_iOS/Pods/leveldb-library/table/table_builder.cc:125-139 | the block being built is written and waits for its index key |
| `Table.TableBuilder.Finish` | Lumiere_iOS/Pods/leveldb-library/table/table_builder.cc:198-253 | the finished table holds exactly the added entries and is well indexed; every data block is followed by its type and checksum; the filter says yes for a block exactly to the keys whose probes are covered by the keys of the blocks that begin in the same 2 KB |
| `Table.TrailerChecks` | Lumiere_iOS/Pods/leveldb-library/table/format.cc:85-98 | the five bytes after a block pass the reader's test: no compression, and the masked checksum of contents and type |
| `Table.FlatHas` | Lumiere_iOS/Pods/leveldb-library/table/table_builder.cc:94-123 | the added entries are exactly the entries of the blocks |
| `TableLookup.GetFromTable` | Lumiere_iOS/Pods/leveldb-library/db/version_set.cc:263-276 | looking a user key up in the bytes of a table, through index, filter and blocks, gives the newest entry visible at the snapshot among all entries stored: the meaning that the version lookup assumes of a table |
| `Pool.StepKeepsInv` | Lumiere_iOS/Pods/Libuv-gRPC/src/threadpool.c:57-160 | every critical section of workers, submission, cancellation (also of a request already delivered as cancelled) and delivery keeps the invariant and forgets no request, delivery or execution |
| `Pool.RunsKeepInv` | Lumiere_iOS/Pods/Libuv-gRPC/src/threadpool.c:57-160 | in every reachable state each request is in exactly one place, and the lists hold exactly the requests of their place |
| `Pool.PoolPromises` | Lumiere_iOS/Pods/Libuv-gRPC/src/threadpool.c:57-315 | slow work runs on at most half the threads rounded up, pending slow work has the run-slow message queued exactly once, and a delivered request carries ECANCELED exactly when it never ran |
| `Pool.ServedInOrder` | Lumiere_iOS/Pods/Libuv-gRPC/src/threadpool.c:57-160 | first come, first served: in every run, of two requests of one kind the later is not started before the earlier unless the earlier was cancelled |
| `Pool.DeliveredInOrder` | Lumiere_iOS/Pods/Libuv-gRPC/src/threadpool.c:121-314 | in every run results come back in the order in which the work ended: every delivery of b follows one of a where a ended first |
| `Pool.WaitsExactly` | Lumiere_iOS/Pods/Libuv-gRPC/src/threadpool.c:66-78 | a worker at the top of its loop waits exactly when the queue is empty, or holds only the run-slow message while half of the threads run slow work; otherwise it takes something |
| `Pool.TakesTheFirst` | Lumiere_iOS/Pods/Libuv-gRPC/src/threadpool.c:80-117 | what it takes: the head of the queue, or for the run-slow message the first slow request while fewer than half of the threads run slow work |
| `Pool.DeliveryCount` | Lumiere_iOS/Pods/Libuv-gRPC/src/threadpool.c:269-314 | in every run a request has been delivered as often as it was cancelled after a delivery, plus once if it now rests delivered |
| `Pool.DeliveredOnceExactly` | Lumiere_iOS/Pods/Libuv-gRPC/src/threadpool.c:269-314 | each request that rests delivered was delivered once, and no other request at all, if and only if no delivered request was ever cancelled again |
| `Pool.DeliveredTwice` | Lumiere_iOS/Pods/Libuv-gRPC/src/threadpool.c:269-314 | a run in which a request cancelled again in its done callback is delivered twice |
| `Heap.ExchangeShape` | Lumiere_iOS/Pods/Libuv-gRPC/src/heap-inl.h:72-104 | after the relinking of heap_node_swap the links spell the same complete tree with parent and child exchanged |
| `Heap.TimerHeap.SwapUp` | Lumiere_iOS/Pods/Libuv-gRPC/src/heap-inl.h:72-104 | the node and its parent change places in the tree, and no other node moves |
| `Heap.TimerHeap.Walk` | Lumiere_iOS/Pods/Libuv-gRPC/src/heap-inl.h:111-126 | the bits of a position lead to the node there and to the slot that holds it |
| `Heap.TimerHeap.Insert` | Lumiere_iOS/Pods/Libuv-gRPC/src/heap-inl.h:106-148 | complete tree, consistent links and heap order are kept; exactly the new node joins |
| `Heap.TimerHeap.Remove` | Lumiere_iOS/Pods/Libuv-gRPC/src/heap-inl.h:150-237 | complete tree, consistent links and heap order are kept; exactly the given node leaves, wherever it was |
| `Heap.TimerHeap.Min` | Lumiere_iOS/Pods/Libuv-gRPC/src/heap-inl.h:67-69 | a least node, or none exactly when the heap is empty |
| `Timers.Loop.Start` | Lumiere_iOS/Pods/Libuv-gRPC/src/timer.c:66-94 | without a callback nothing changes; otherwise exactly this timer is queued, at loop time plus timeout or 2^64 - 1 where that would wrap, with a fresh start number; and it is due at a loop time exactly from then on |
| `Timers.Loop.Stop` | Lumiere_iOS/Pods/Libuv-gRPC/src/timer.c:97-107 | the timer leaves the heap and no other does |
| `Timers.Loop.Again` | Lumiere_iOS/Pods/Libuv-gRPC/src/timer.c:110-120 | a repeating timer is queued at loop time plus its interval, or 2^64 - 1 where that would wrap; another is left alone |
| `Timers.Loop.UpdateTime` | Lumiere_iOS/Pods/Libuv-gRPC/src/unix/internal.h:304-308 | only the loop time changes |
| `Timers.Loop.RunTimers` | Lumiere_iOS/Pods/Libuv-gRPC/src/timer.c:154-171 | exactly the due timers fire, each once, by timeout and, where that is equal, in the order in which they were started; repeating ones are queued again and none is left due |
| `Timers.Loop.Turn` | Lumiere_iOS/Pods/Libuv-gRPC/src/timer.c:154-171 | at the largest loop time a turn leaves every due repeating timer due, and a loop that could not end still cannot |

## Left out

- Store.RunsKeepInv: a compaction is one step there; compactions that take time are in `Nested` and `Levelled`, and `Background` runs one without a flush inside.
- Durability: files of a version are a set of numbers without levels, and a compaction may commit any outputs that keep every reading of the entries from its smallest snapshot on; `Levelled` adds the levels and `Levelled.CommitExact` says when the drop rule's outputs do so.
- DurableReads.ReadsSurviveCrash: speaks of entries stored and not of lookups, for which see `Levelled.ReopenedFinds`; promises nothing for a log after an append into it has failed, where the promise is false (`Log.FailedAppendHides`); a failed background job ends background work, and recovery is one atomic step.
- Progress.NeverStuck: shows that a way exists, not that every scheduler takes it; writers held back for too many level-0 files are not modelled.
- DurableReads.RunningReads: speaks of entries stored and not of lookups, for which see `Levelled.RunningFinds`.
- Levelled.RunningFinds: needs its condition on flushes beside a compaction, without which it is false (`LostKey.WrittenKeyIsLost`); a trivial move is a compaction without inputs of the underlying machine.
- Log.FailedAppendHides: covers the block of the failure; what the reader makes of later blocks follows only from `LogRuns.ReadsExactlyTheRuns`.
- Log.Reader.ReadRecord: no initial offset and no resynchronising; what it makes of any bytes is `LogRuns.ReadsExactlyTheRuns`.
- Block.BlockBuilder.Add: blocks of 4 GB and more, whose 32-bit restart offsets would be truncated, are excluded.
- Block.BuildAndWalk: entry lists whose block could reach 4 GB are excluded, for the same reason.
- Block.Iter.ParseNextKey: blocks that the builder cannot have produced are not modelled, so the corruption status never arises.
- Table.TableBuilder.Add: data and index blocks of 4 GB and more are excluded, as in `Block.BlockBuilder.Add`.
- TableLookup.GetFromTable: keys whose trailer holds an unknown type, which the source reports as corruption, are excluded.
- Table.InternalGet: no footer, metaindex, compression or block cache, and checksums are written but not verified; a filter policy is always set.
- FilterBlock.FilterBlockBuilder.Finish: promises its answers only for filter blocks below 4 GB, whose 32-bit offsets do not wrap.
- Bloom.CreateFilter: the hash is any function and the number of probes a parameter instead of 0.69 times the bits per key.
- Cache.HandleTable.FindPointer: the bucket is the hash modulo the length, which is the masked hash for the power-of-two lengths; sharding and the destructor are not modelled.
- Selection.PickCompaction: the compaction pointer is a parameter; moving it on after a compaction is not modelled, nor is the choice of a level.
- EditCodec.EncodeTo: deleted files of an edit are written in any order, where the source writes them ascending.
- Cache.LRUCache.Insert: the doubly linked lists are sequences, so pointer rewiring of LRU_Append and LRU_Remove is not captured.
- SkipList.ConcurrentSearch: steps are sequentially consistent; C++ memory ordering is not modelled.
- Timers.Loop.RunTimers: callbacks start and stop no timers; the case in which the loop never ends, a due repeating timer at the largest loop time, is `Timers.Loop.Turn`.
- Pool.StepKeepsInv: condition variables may wake any idle worker at any time; progress is not claimed. Submitting the same structure again is a request with a new number, and the old links of a delivered request are taken not to damage another queue, as in its own done callback.
- Recovery.RecoverRecords: manifests that add one (level, number) twice are excluded, where one builder and repeated installation can differ; a table's entries are found by its file number in a map; reading and applying the records are two loops instead of one; reuse of an old manifest and the CURRENT file are not modelled.
- Batch.RecoverLogFile: reuse of the last log file is not modelled.
- CRC32C tables: a checksum is any left fold over bytes.
- Compaction scores, seek-triggered compaction statistics, read sampling, write delays: heuristics, taken as arbitrary.
- repair.cc, dumpfile.cc, Env, posix files, locks, the C binding: best effort or I/O.
- libuv idna, inet, fs-poll and nanopb: conversions without an inverse, or code generated elsewhere.
- The application's own Swift code: user interface and Firebase calls.
