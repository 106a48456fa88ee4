# LevelDB and nanopb: models and proofs

The project models two libraries that the application carries: the LevelDB key-value store
(under `MBER/Pods/leveldb-library`) and the nanopb Protocol Buffers codec (under
`MBER/Pods/nanopb`), and proves what they promise.

**LevelDB.** The simple meaning of a database is a set of versioned entries: for a user key and
a snapshot, a reader sees the newest entry not above the snapshot (`InternalKeys`). Everything
else is measured against it.

- *Versions and compactions.* `Versions`, `LevelRanges`, `Picking` and `VersionSets` model the
  levels of files, the search through them and the choice of compaction inputs. `DropRule`,
  `Compactions`, `TreeUpdates` and `Flushes` model the merge loop with its drop rules, the
  installation of its outputs and a memtable flush in the middle of it.
- *The store.* `Store` is a state machine whose steps lie between releases of the mutex: logging a
  group, inserting its entries, acknowledging it, freezing the memtable, building tables,
  committing edits to the manifest and then to memory, deleting files, taking snapshots, pinning
  versions, crashing and reopening. `StoreInvariant` to `StoreTheorems` prove its invariant and
  the theorems about all runs. `Reading` is the read path from the memtable down and `StoreReads`
  its use in reachable states. `Recovery` is the replay of the logs. `Manifest` holds the builder,
  `VersionEdits` the bytes of an edit, `ManifestRecords` the writing and recovery of a whole
  manifest, and `StoreEdits` the manifest of a run of the store.
- *Iterators, logs, batches.* `DbIter` is the two-direction cursor. `LogFormat`, `LogReader`,
  `LogTheorems` and `LogDamage` are the log file with truncation and damage. `WriteBatches`,
  `WriteQueues` and `GroupCommits` are batches and group commit, `Scheduling` the scheduling of
  background work.
- *Structures.* `SkipLists` splits an insertion into its single stores and interleaves them with
  readers; `SkipListCode` holds the methods. `Snapshots` is the circular list of snapshots.

**nanopb.** `PbSchemas` holds descriptors, structures and the wire format of the Protocol Buffers
Encoding specification. `PbEncoders` is the encoder on writing and sizing streams,
`PbDecoders` the decoder as a specification, `PbFieldIters`, `PbStreams` and `PbDecoding` the
decoder as code on streams, and `PbRoundTrips` the theorems about both. `PbWire` gives the bytes of
a message in numbers, `PbForeign` what the decoder makes of other writers' values, and `PbRequired`
when a message is refused for a missing field.

Three properties turn out to depend on a condition that the code does not establish. Each is
stated as an equivalence with that condition.

- `SetupOtherInputs` closes the upper inputs of a compaction under shared boundary user keys, but
  not the lower ones (`MBER/Pods/leveldb-library/db/version_set.cc:1407` and `:1422`). A deletion
  marker can then be dropped while an older value of its key stays behind in a lower file that was
  not chosen. Reads are preserved exactly if no key is exposed in this way
  (`TreeUpdates.CompactionPreservesReadsIff`); `Counterexamples.UnclosedNextLevelResurrectsKey` is
  an instance. `Store.ClosedRun` is the condition on a run that every compaction starts with closed
  lower inputs, which can be checked on the file bounds when it starts
  (`StoreTheorems.ClosesInputsIff`); under it no key is ever exposed
  (`StoreTheorems.ClosedRunStaysClean`), and the theorems about reads hold.
- A manual compaction may choose several files with gaps between them. A memtable flushed into the
  output level meanwhile is safe exactly if no two kept entries lie on either side of it
  (`Flushes.FlushIntoOutputLevelIff`); `Counterexamples.ManualGapBreaksLevelOrder` is an instance.
  The store's steps are the code's, gaps included; `Store.SafeRun` is the condition on a run that
  its flushes separate no entries of a running compaction. Inputs chosen by `PickCompaction` have
  no gaps, so a run without manual compactions always meets it (`StoreTheorems.AutomaticRunIsSafe`).
- After a background error, or in a shutdown, the thread that asked for a manual compaction leaves
  without waiting for it. The running compaction's end then finds the slot empty that it is about
  to update: `Scheduling.SlotLostIff` and `Scheduling.SlotHeldIff` say exactly when, and
  `Scheduling.ManualSlotCanBeGone` is an instance.

Two smaller ones concern bytes that the libraries' own writers never produce. A log record whose
type byte is 6, the reader's own mark for a refused record, loses its payload without a report, and
with type byte 5 it ends the reading (`LogDamage.FeedConserves`, `LogDamage.MarkEnds`). A 32-bit varint in nanopb may have
ten bytes with anything in the three bits above the 32nd (`PbForeign.Varint32Iff`).

One builder over a whole manifest agrees with one builder per edit exactly if no edit adds again a
file that an earlier one deleted from the same level (`Manifest.OneBuilderIff`). The code's own runs
meet this condition, because table numbers are fresh and files only move down
(`StoreEdits.ManifestIsRestored`).

The size type of nanopb's descriptors has one, two or four bytes by a choice of the build; the
application sets `PB_FIELD_32BIT`. The choice is an open constant (`PbSchemas.SIZE_TYPE`), so that
every theorem about nanopb holds for all three.

## Model

| member | source | states |
|---|---|---|
| InternalKeys.SeekKeySeparates | MBER/Pods/leveldb-library/db/dbformat.cc:121-138 | A lookup key sorts behind exactly the entries of smaller keys and the entries of its own key above the snapshot. |
| InternalKeys.TrailerInNumbers | MBER/Pods/leveldb-library/db/dbformat.cc:14-18 | The trailer of an internal key is 256 times the sequence number plus 1 for a value and 0 for a deletion; both can be read off it, and the largest sequence number fills its 56 bits. |
| InternalKeys.LayeredNewest | MBER/Pods/leveldb-library/db/db_impl.cc:1122-1134 | If every entry of a layer is newer than the entries of the same key below it, searching the layer first and falling through only on a miss finds the newest entry of both. |
| Versions.FindFile | MBER/Pods/leveldb-library/db/version_set.cc:88-106 | The binary search returns the first file whose largest key is not before the sought key. |
| Versions.TableGet | MBER/Pods/leveldb-library/db/version_set.cc:263-276 | One table answers with its newest entry of the key not above the snapshot, and misses only if it has none. |
| Versions.Get | MBER/Pods/leveldb-library/db/version_set.cc:326-421 | On every version with sorted disjoint levels in which shallower means newer, the early-stopping search returns exactly the newest entry not above the snapshot among all files. It charges a table a seek exactly if that is the first of the tables the key leads to, holds nothing for it, and another one follows; such a table lies above the last level. |
| Versions.CollectLevelZero | MBER/Pods/leveldb-library/db/version_set.cc:349-364 | The level-0 candidates are the files whose range holds the key, newest file number first. |
| Reading.MemTableGet | MBER/Pods/leveldb-library/db/memtable.cc:100-134 | Seeking the first memtable entry not before the lookup key and checking its user key finds the newest entry not above the snapshot. |
| Reading.DbGet | MBER/Pods/leveldb-library/db/db_impl.cc:1100-1145 | Memtable, then frozen memtable, then version: the value read is the simple lookup in the union of all three. A table is charged a seek only if neither memtable answers. |
| LevelRanges.SomeFileOverlapsRange | MBER/Pods/leveldb-library/db/version_set.cc:122-162 | True exactly if some file overlaps the range, by scan or, on sorted disjoint files, by binary search. |
| LevelRanges.GetOverlappingInputs | MBER/Pods/leveldb-library/db/version_set.cc:519-559 | The scan with restarts ends; the inputs are exactly the files meeting the given range, on level 0 the least range that contains the given one and every file it meets, so no omitted file overlaps a chosen one. |
| LevelRanges.PickLevelForMemTableOutput | MBER/Pods/leveldb-library/db/version_set.cc:491-516 | The level returned is the deepest that the overlap rules allow; above level 0 no file from level 0 down to it overlaps the flushed range. |
| Reading.PlaceFlush | MBER/Pods/leveldb-library/db/version_set.cc:491-516 | A table put on the level returned keeps level order and recency possible: nothing on its level and nothing newer above overlaps it. |
| Picking.GetRange | MBER/Pods/leveldb-library/db/version_set.cc:1202-1224 | The result is the least and the greatest internal key of the files. |
| Picking.FindLargestKey | MBER/Pods/leveldb-library/db/version_set.cc:1324-1340 | The greatest largest key of the files, and none for no files. |
| Picking.FindSmallestBoundaryFile | MBER/Pods/leveldb-library/db/version_set.cc:1342-1362 | Among the files that start behind the key with the same user key, one with the least start; none if there are none. |
| Picking.AddBoundaryInputs | MBER/Pods/leveldb-library/db/version_set.cc:1378-1401 | The loop ends. Each file added is, of those that continue the largest user key so far, one that starts first, and none is left to add. None are added to an empty set, and a contiguous or gap-free set stays so. |
| Picking.ClosedRunLeavesNoOlder | MBER/Pods/leveldb-library/db/version_set.cc:1364-1377 | A boundary-closed contiguous set of a sorted disjoint level leaves no older entry of any of its user keys on the level. |
| Picking.BoundaryClosedIff | MBER/Pods/leveldb-library/db/version_set.cc:1364-1377 | On a sorted disjoint level, a chosen set leaves nothing older of its user keys behind if and only if no file outside it starts with the user key at which a chosen file before it ends. |
| VersionSets.InitialSeeks | MBER/Pods/leveldb-library/db/version_set.cc:670-687 | A table may cost one seek for every full 16384 bytes, but at least a hundred. |
| VersionSets.VersionSet.Finalize | MBER/Pods/leveldb-library/db/version_set.cc:1050-1086 | The score reaches one exactly if level 0 has 4 files or levels 1 to 5 have 10485760, 104857600, 1048576000, 10485760000 or 104857600000 bytes; the level chosen is the first with the greatest ratio of files or bytes to these numbers. |
| VersionSets.VersionSet.Install | MBER/Pods/leveldb-library/db/version_set.cc:784-799 | The installed version is scored, becomes the current one, has no seek candidate yet, and needs a compaction exactly if some level has reached its limit; a table new on its level begins with its initial allowance, the others keep what is left. |
| VersionSets.VersionSet.UpdateStats | MBER/Pods/leveldb-library/db/version_set.cc:423-434 | A table that cost a seek loses one of its allowance, no other does, and the first to use its allowance up becomes the seek candidate; then a compaction is needed. |
| VersionSets.VersionSet.StopTriggerNeedsCompaction | MBER/Pods/leveldb-library/db/version_set.cc:1050-1086 | Level 0 at the stop trigger always scores at least one. |
| VersionSets.VersionSet.PickCompaction | MBER/Pods/leveldb-library/db/version_set.cc:1270-1322 | Nothing exactly if no level has reached its limit, in the numbers of Finalize, and no seek candidate waits. Otherwise the inputs are exactly those that follow from a start file, on level 0 with all that overlap it. The start is, on the fullest level, the first file that ends behind the level's pointer, or the first of all; only without a full level, the seek candidate. The inputs are well chosen, and any user-key range that meets their overall range meets one of them. |
| VersionSets.VersionSet.CompactRange | MBER/Pods/leveldb-library/db/version_set.cc:1464-1495 | Nothing is compacted exactly if no file of the level overlaps the range. Otherwise the inputs are well chosen and exactly those that follow from all files of the range on level 0, and on deeper levels from its first files up to the one that reaches the size limit. |
| VersionSets.VersionSet.SetupOtherInputs | MBER/Pods/leveldb-library/db/version_set.cc:1403-1462 | From any valid start set the two input sets are exactly determined: boundary files one by one, the lower files that meet the range, and an expansion exactly if worth it. They are well chosen, gap-free starts stay gap-free, the grandparents are the files two levels down that meet the whole range, and the compaction pointer of the level moves to the largest key chosen. |
| VersionSets.ExpandInputs | MBER/Pods/leveldb-library/db/version_set.cc:1415-1447 | The upper inputs are taken again over the whole range exactly if that brings more files, together with the lower ones less than 25 tables of bytes, and no further lower file; both sets still fit, and gap-free sets stay so. |
| VersionSets.IsTrivialMove | MBER/Pods/leveldb-library/db/version_set.cc:1515-1523 | True exactly for a single input with nothing below it and at most ten tables of bytes two levels down; that input alone is then well chosen. |
| DropRule.KeptExactly | MBER/Pods/leveldb-library/db/db_impl.cc:930-975 | The one-pass rule with its remembered key and sequence number keeps exactly the entries of a rule stated per entry, in order. |
| DropRule.DropPreservesReadsIff | MBER/Pods/leveldb-library/db/db_impl.cc:941-969 | Dropping leaves every read at every snapshot from the smallest one on unchanged if and only if it exposes no key: no deletion marker is dropped while an older value of its key lies outside the inputs. |
| Compactions.CompactionScan.IsBaseLevelForKey | MBER/Pods/leveldb-library/db/version_set.cc:1533-1552 | For every non-decreasing sequence of keys, the cursors answer whether no file from two levels down to level 6 has the key in its range. |
| Compactions.CompactionScan.ShouldStopBefore | MBER/Pods/leveldb-library/db/version_set.cc:1554-1576 | The cursor passes exactly the grandparents before the key, and a cut is asked for exactly when those passed since the last cut exceed ten tables of bytes. |
| Compactions.DoCompactionWork | MBER/Pods/leveldb-library/db/db_impl.cc:878-1034 | The tables written are disjoint, in order and under fresh numbers, and hold exactly the entries of the input files that the drop rule keeps. Each table but the last has reached its size, or the grandparents passed since the last stop exceed the limit at some input key behind it and not behind the next table; no table goes on over such a key or after reaching its size. So no table spans more than the limit of grandparent bytes, and where all grandparents fit it, only the last table is smaller than its size. |
| Compactions.WellCutTables | MBER/Pods/leveldb-library/db/db_impl.cc:917-996 | Tables so cut span no more than the limit of grandparent bytes between first and last key, and have their size, but for the last, where all grandparents fit the limit. |
| Compactions.ShouldDrop | MBER/Pods/leveldb-library/db/db_impl.cc:939-969 | With the remembered sequence number, an entry is dropped exactly if the drop rule says so. |
| Compactions.KeptMeans | MBER/Pods/leveldb-library/db/db_impl.cc:939-969 | An input entry is kept exactly if no newer entry of its key is visible at the smallest snapshot, and it is not a deletion marker at or below that snapshot whose key lies in no file range from two levels down on. |
| Compactions.WrittenTablesAreComplete | MBER/Pods/leveldb-library/db/db_impl.cc:930-999 | Tables in order whose entries are the kept sequence are pairwise disjoint and hold the entries kept by the rule stated per entry. |
| TreeUpdates.InstallKeepsTreeInv | MBER/Pods/leveldb-library/db/db_impl.cc:860-876 | Replacing inputs by disjoint outputs made from them keeps sorted disjoint levels and shallower-is-newer, also if tables were flushed beside the inputs meanwhile, as long as none lies between two entries of the outputs. |
| TreeUpdates.ChosenIsInstallable | MBER/Pods/leveldb-library/db/version_set.cc:1403-1462 | Inputs as the code chooses them can be installed, whatever of them is kept. |
| TreeUpdates.TrivialMoveKeepsTreeInv | MBER/Pods/leveldb-library/db/db_impl.cc:718-728 | Moving a single input with nothing to merge keeps both as well, and the set of entries. |
| TreeUpdates.CompactionPreservesReadsIff | MBER/Pods/leveldb-library/db/db_impl.cc:878-1034 | For every tree and every choice of inputs, all reads at live snapshots are the same after installing the outputs if and only if the compaction exposes no key. |
| TreeUpdates.ClosedNextLevelExposesNothing | MBER/Pods/leveldb-library/db/version_set.cc:1403-1462 | If the next-level inputs, too, leave no older entry of a chosen user key behind, no key is exposed. |
| Counterexamples.UnclosedNextLevelResurrectsKey | MBER/Pods/leveldb-library/db/version_set.cc:1407-1413 | The code closes only the upper inputs under shared boundary keys: a tree and well-chosen, gap-free inputs for which a deleted key reads its old value after the compaction. |
| Flushes.FlushKeepsTreeInv | MBER/Pods/leveldb-library/db/db_impl.cc:500-533 | Adding a table of newer entries on an allowed level keeps sorted disjoint levels and shallower-is-newer. |
| Flushes.GapFreeInputsRepelFlush | MBER/Pods/leveldb-library/db/version_set.cc:491-516 | No two entries of a gap-free compaction's inputs lie on either side of a table that meets none of the inputs. |
| Flushes.FlushDuringCompaction | MBER/Pods/leveldb-library/db/db_impl.cc:906-918 | A memtable flushed while a compaction is at work leaves it installable and its base keys base keys: on any level but the output level always, on the output level if it separates no two entries the compaction keeps. |
| Flushes.FlushIntoOutputLevelIff | MBER/Pods/leveldb-library/db/version_set.cc:1464-1495 | A flush into the output level is safe for every way of cutting the outputs into tables if and only if no two kept entries lie on either side of the flushed table. |
| Counterexamples.ManualGapBreaksLevelOrder | MBER/Pods/leveldb-library/db/version_set.cc:1464-1495 | Manual inputs with a gap, a flush that the placing rule allows into that gap, and an output table that then overlaps it. |
| StoreTheorems.RunKeepsInv | MBER/Pods/leveldb-library/db/db_impl.cc:535-566 | The invariant of memory, versions, tables, logs, manifest and history holds in every state of every run of writes, switches, flushes, compactions, moves, manifest commits, deletions, crashes and reopenings in which no flush separates entries of a compaction running into its level. |
| StoreTheorems.AutomaticRunIsSafe | MBER/Pods/leveldb-library/db/db_impl.cc:688-766 | Every run without manual compactions is such a run. |
| StoreTheorems.SparedIff | MBER/Pods/leveldb-library/db/db_impl.cc:535-555 | In every state of the invariant, a flush into the output level of the running compaction meets that condition if and only if no way of cutting the kept entries into tables breaks the order of the level. |
| StoreReads.ReachableGet | MBER/Pods/leveldb-library/db/db_impl.cc:1100-1145 | In every reachable state, with the vectors and memtables that represent it, Get with its early stops and binary searches returns the newest entry present that is not above the snapshot; if compactions start with closed inputs, the newest acknowledged one. |
| StoreReads.LayersAreOrdered | MBER/Pods/leveldb-library/db/version_set.cc:326-421 | In every state of the invariant the sorted vectors of a version's levels are in key order, and memtable, frozen memtable and tables lie from newer to older: all that the search relies on. |
| StoreTheorems.ReadsSeeHistory | MBER/Pods/leveldb-library/db/db_impl.cc:1100-1145 | In every run whose compactions start with closed lower inputs, every live snapshot reads in every state the newest acknowledged entry not above it. |
| StoreTheorems.ClosedRunStaysClean | MBER/Pods/leveldb-library/db/version_set.cc:1403-1462 | If every compaction starts with lower inputs behind which their level holds nothing older, no compaction of the run ever exposes a key, flushes in between included. |
| StoreTheorems.ClosesInputsIff | MBER/Pods/leveldb-library/db/version_set.cc:1364-1377 | At the start of a compaction in any reachable state, the lower inputs are closed in this sense if and only if no file left on their level starts with the user key at which a chosen file before it ends. |
| StoreTheorems.AcknowledgedWritesSurvive | MBER/Pods/leveldb-library/db/db_impl.cc:280-369 | Whatever crashes and reopenings lie between, a write that was the visible one when acknowledged stays it until its key is written again, in every run whose compactions start with closed lower inputs. |
| StoreTheorems.NewSequencesAreFresh | MBER/Pods/leveldb-library/db/db_impl.cc:364-366 | In every reachable open state no stored entry is numbered above the last sequence number and the writes in flight. |
| StoreTheorems.NothingNeededIsDeleted | MBER/Pods/leveldb-library/db/db_impl.cc:223-278 | At every moment of every run the manifest's tables and the tables of every pinned version are on disk, every entry that is only in memory or in flight is in a log the manifest still names or in a table it lists, and while no key was exposed the disk reads as all that was written. |
| StoreTheorems.RunKeepsLogOrder | MBER/Pods/leveldb-library/db/db_impl.cc:322-352 | In every reachable state replaying the logs by number meets the entries in the order of their sequence numbers. |
| StoreTheorems.InflightIsInvisible | MBER/Pods/leveldb-library/db/db_impl.cc:1200-1237 | Entries of a group still being written change no read at a snapshot taken so far. |
| StoreCommits.InstallKeepsInv | MBER/Pods/leveldb-library/db/version_set.cc:801-884 | Installing what the manifest already records keeps the invariant, for a flush, a compaction and the edit of a reopening. |
| StoreCommits.WriteManifestKeepsInv | MBER/Pods/leveldb-library/db/version_set.cc:845-866 | Appending an edit to the manifest before the version is installed keeps the invariant, so a crash in between is harmless. |
| StoreCommits.DeleteTableKeepsInv | MBER/Pods/leveldb-library/db/db_impl.cc:232-263 | Deleting a table that no version and no pending output needs keeps the invariant. |
| StoreCommits.DeleteLogKeepsInv | MBER/Pods/leveldb-library/db/db_impl.cc:244-247 | Deleting a log below the manifest's log number keeps the invariant. |
| StoreCommits.CrashKeepsInv | MBER/Pods/leveldb-library/db/db_impl.cc:280-369 | A crash at any point leaves a disk from which everything acknowledged can be read. |
| StoreCommits.OpenKeepsInv | MBER/Pods/leveldb-library/db/db_impl.cc:280-369 | Reopening from any such disk reaches a state of the invariant again. |
| StoreWrites.LogKeepsInv | MBER/Pods/leveldb-library/db/db_impl.cc:1204-1215 | Logging a group under the next sequence numbers keeps the invariant. |
| StoreWrites.SwitchKeepsInv | MBER/Pods/leveldb-library/db/db_impl.cc:1346-1366 | Freezing the memtable and starting a log under a fresh number keeps the invariant. |
| StoreBackground.PrepareFlushKeepsInv | MBER/Pods/leveldb-library/db/db_impl.cc:535-555 | Placing the flushed table against the version of that moment keeps the invariant, with a compaction possibly at work whose kept entries it does not separate. |
| StoreBackground.PrepareCompactionKeepsInv | MBER/Pods/leveldb-library/db/db_impl.cc:860-876 | Turning a finished compaction into an edit keeps the invariant. |
| Recovery.RecoverLogFile | MBER/Pods/leveldb-library/db/db_impl.cc:371-497 | Replaying one log passes over records too small to be a batch, inserts the entries of every other in order, and leaves tables in which later files are newer, plus the greatest sequence number met. Each table holds the records from one position to another; one is written exactly when a batch has made the memtable too big, and at the end of the log. |
| Recovery.Recover | MBER/Pods/leveldb-library/db/db_impl.cc:322-369 | It gives up exactly if a table the manifest lists is missing, which no run leads to. Else the logs not older than the manifest's are replayed in number order: the tables hold exactly their entries, numbers in use are passed over, and the last sequence number is the greatest recorded or met. This is the reopening step of the store. |
| Recovery.CollectLogs | MBER/Pods/leveldb-library/db/db_impl.cc:322-347 | Exactly the logs from the minimum number on, in increasing order. |
| Manifest.OneBuilderIff | MBER/Pods/leveldb-library/db/version_set.cc:933-968 | One builder for all edits agrees with one builder per edit at every point of the manifest if and only if no edit adds again a file that was deleted from the level. |
| Manifest.NeverReaddedMeansNoRevival | MBER/Pods/leveldb-library/db/version_set.cc:670-689 | If no level and file number is added twice, nothing is revived. |
| Manifest.Builder.Apply | MBER/Pods/leveldb-library/db/version_set.cc:650-692 | The builder's sets after an edit are those of all edits applied so far, for every edit, also one that claims a slot already taken. |
| Manifest.Builder.SaveTo | MBER/Pods/leveldb-library/db/version_set.cc:695-739 | The vectors saved are the merge of base and added files without the deleted numbers. |
| Manifest.ReplayMeaning | MBER/Pods/leveldb-library/db/version_set.cc:695-739 | If no level and file number is added twice, the vectors one builder saves are strictly sorted and hold exactly what applying the edits one at a time leaves. |
| ManifestRecords.Recover | MBER/Pods/leveldb-library/db/version_set.cc:886-1001 | Recovery succeeds exactly if every record parses, none names another comparator and the three counters occur; the version is that of one builder over all edits, each counter the last recorded; otherwise the error is that of the first bad record or the missing counter. |
| ManifestRecords.LogAndApply | MBER/Pods/leveldb-library/db/version_set.cc:801-884 | The edit is written with every counter, behind a snapshot of the current version if the manifest is new, and the new version is the current one with the edit applied. |
| ManifestRecords.ManifestRoundTrip | MBER/Pods/leveldb-library/db/version_set.cc:886-1001 | Through the bytes: what was recorded since the snapshot of a version is recovered without error, and gives exactly the vectors of the running database and the counters of its last edit. |
| Manifest.ApplyEdit | MBER/Pods/leveldb-library/db/version_set.cc:816-823 | A commit's new version is the current one through a builder of its own: sorted, with exactly the files the edit leaves, if the edit adds no number a level already has. |
| Manifest.ManifestRestoresVersion | MBER/Pods/leveldb-library/db/version_set.cc:886-968 | For every version, the snapshot record and all later edits through one builder give as sequences the same vectors as one builder per edit, in every run that adds no level and file number twice. |
| Manifest.WriteSnapshot | MBER/Pods/leveldb-library/db/version_set.cc:1104-1112 | The snapshot lists every file of every level once, in the order of the vectors, and deletes nothing. |
| StoreEdits.CodeEditDescribes | MBER/Pods/leveldb-library/db/db_impl.cc:860-876 | The edit the code prepares for a flush, a compaction, a move or a reopening adds and deletes, level by level, exactly what changes in the version committed. |
| StoreEdits.RunKeepsTrace | MBER/Pods/leveldb-library/db/version_set.cc:801-884 | In every state of every run no file stands above a level it was listed on, and numbers of tables not yet committed were never listed. |
| StoreEdits.ManifestIsRestored | MBER/Pods/leveldb-library/db/version_set.cc:886-1001 | In every run no edit adds a level and file number the manifest has listed before; a manifest begun at any moment therefore restores at any later one exactly the vectors of the running database, which hold the files of the store's manifest and are in key order. |
| VersionEdits.RoundTrip | MBER/Pods/leveldb-library/db/version_edit.cc:41-205 | Decoding an encoded edit gives it back for every edit and every order of the deleted files; compaction pointers from before stay in front, because Clear keeps them. |
| VersionEdits.VersionEdit.EncodeTo | MBER/Pods/leveldb-library/db/version_edit.cc:41-85 | The bytes written are those of the format, field by field. |
| VersionEdits.EditBytes | MBER/Pods/leveldb-library/db/version_edit.cc:14-85 | The encoding in numbers: comparator, log number, previous log number, next file number, last sequence, pointers, deletions and additions in this order, told by the bytes 1, 2, 9, 3, 4, 5, 6 and 7; absent ones give no byte. |
| VersionEdits.UnknownTag | MBER/Pods/leveldb-library/db/version_edit.cc:120-194 | A field behind any other tag, 8 included, is a corruption. |
| VersionEdits.UnknownLevel | MBER/Pods/leveldb-library/db/version_edit.cc:97-105 | So is a pointer, deletion or addition on level 7 or deeper. |
| VersionEdits.VersionEdit.DecodeFrom | MBER/Pods/leveldb-library/db/version_edit.cc:107-205 | Success and the resulting edit are those of the grammar; a bad field, an unknown tag or trailing bytes are a corruption. |
| DbIter.ViewIsTheMap | MBER/Pods/leveldb-library/db/db_iter.cc:168-198 | The visible positions are the sorted map of exactly the keys a lookup at the sequence finds, with the values it finds. |
| DbIter.DBIter.FindNextUserEntry | MBER/Pods/leveldb-library/db/db_iter.cc:168-198 | It stops at the first visible entry from its start on, skipping deleted and hidden keys, or finds that there is none. |
| DbIter.DBIter.FindPrevUserEntry | MBER/Pods/leveldb-library/db/db_iter.cc:227-267 | Backwards it saves the last visible entry before its start and stops one step before it. |
| DbIter.DBIter.Next | MBER/Pods/leveldb-library/db/db_iter.cc:141-166 | From either direction, the cursor moves to the next key of the map. |
| DbIter.DBIter.Prev | MBER/Pods/leveldb-library/db/db_iter.cc:200-225 | From either direction, the cursor moves to the previous key of the map. |
| DbIter.DBIter.Seek | MBER/Pods/leveldb-library/db/db_iter.cc:269-281 | The cursor stands on the first key of the map not before the target. |
| DbIter.DBIter.SeekToFirst | MBER/Pods/leveldb-library/db/db_iter.cc:283-292 | The cursor stands on the first key of the map. |
| DbIter.DBIter.SeekToLast | MBER/Pods/leveldb-library/db/db_iter.cc:294-299 | The cursor stands on the last key of the map. |
| DbIter.Run | MBER/Pods/leveldb-library/db/db_iter.cc:141-299 | For every sequence of operations and direction switches, position, key and value are those of a cursor over the map after every operation. |
| LogFormat.Writer.AddRecord | MBER/Pods/leveldb-library/db/log_writer.cc:34-80 | From any offset, the bytes appended are the record's fragments laid out in blocks, trailers zeroed. |
| LogFormat.Writer.EmitPhysicalRecord | MBER/Pods/leveldb-library/db/log_writer.cc:82-108 | Header and payload are appended and the block offset follows the file's length. |
| LogFormat.WriteAll | MBER/Pods/leveldb-library/db/log_writer.cc:27-32 | With new writers at the clean end of the file at any points, the file is that of one writer. |
| LogFormat.FragmentsShape | MBER/Pods/leveldb-library/db/log_writer.cc:34-80 | A record's fragments make it up. A single one has type 1; otherwise the first has type 2, the last type 4 and the others type 3. All but the last end on a multiple of 32768 bytes, and no header starts in the last six bytes before one. |
| LogFormat.PhysicalBytes | MBER/Pods/leveldb-library/db/log_format.h:14-31 | A physical record is four bytes of checksum, two of length and one of type, little-endian, and the payload. |
| LogReader.Reader.ReadPhysicalRecord | MBER/Pods/leveldb-library/db/log_reader.cc:189-271 | Record or outcome, reported drops and new position are those of the file's bytes from the old position on. |
| LogReader.Reader.ReadRecord | MBER/Pods/leveldb-library/db/log_reader.cc:56-174 | Each call delivers the next record of the reassembly of the rest of the file, with its reports. |
| LogReader.ReadAll | MBER/Pods/leveldb-library/db/log_reader.cc:56-174 | Reading to the end delivers and reports what the whole file's reassembly does. |
| LogTheorems.RoundTrip | MBER/Pods/leveldb-library/db/log_reader.cc:56-174 | For every list of records, the reader returns exactly that list and reports nothing. |
| LogTheorems.TruncatedFile | MBER/Pods/leveldb-library/db/log_reader.cc:144-151 | Cut at any byte, the file gives back exactly the records that lie wholly before the cut, and nothing is reported. |
| LogDamage.DamageIsContained | MBER/Pods/leveldb-library/db/log_reader.cc:216-257 | With one block overwritten so that its first physical record is refused, the reader returns, in order, exactly the records that have no byte in that block. The bytes it reports lost are the block and what the records cut by it have before and behind it; a block that starts with zeros is not counted itself, and nothing is reported where the file seems to end in the middle of a write. |
| LogDamage.FeedConserves | MBER/Pods/leveldb-library/db/log_reader.cc:78-174 | Every payload byte of a physical record is delivered, reported lost or kept for the rest of its record, whatever its type, except that a type of 6 in the file, the mark the reader uses for refused records, loses its payload without a report. |
| LogDamage.ScanConserves | MBER/Pods/leveldb-library/db/log_reader.cc:56-174 | Over a whole file: what is delivered and reported, and one unfinished record at the end, is what the physical records brought. |
| Coding.TakeVarintRoundTrip | MBER/Pods/leveldb-library/util/coding.cc:81-90 | A varint in front of any bytes is taken back, with those bytes left. |
| Coding.VarintInGroups | MBER/Pods/leveldb-library/util/coding.cc:81-90 | The bytes of a varint have the high bit set but for the last; their groups of seven bits, least significant first, are the number; no shorter bytes are. |
| Coding.VarintsTaken | MBER/Pods/leveldb-library/util/coding.cc:112-170 | A varint is read up to its first byte without the high bit, overlong or not, and reduced to the word; it is refused exactly if five bytes, ten for a long word, or all that is left have that bit. |
| Coding.Word64Bytes | MBER/Pods/leveldb-library/util/coding.cc:9-33 | Words are written little-endian, in eight bytes as in four. |
| Coding.PrefixedRoundTrip | MBER/Pods/leveldb-library/util/coding.cc:98-101 | A length-prefixed string in front of any bytes is taken back. |
| WriteBatches.WriteBatch.Put | MBER/Pods/leveldb-library/db/write_batch.cc:98-103 | The batch then holds one more operation. |
| WriteBatches.WriteBatch.Append | MBER/Pods/leveldb-library/db/write_batch.cc:144-148 | The batch then holds its operations followed by the other's. |
| WriteBatches.WriteBatch.Iterate | MBER/Pods/leveldb-library/db/write_batch.cc:42-80 | The handler sees the operations up to the first malformed record; success means well-formed records in the number of the header. |
| WriteBatches.WriteBatch.InsertInto | MBER/Pods/leveldb-library/db/write_batch.cc:132-137 | Every operation enters the memtable once, numbered on from the batch's sequence number. |
| WriteBatches.DeliveredRoundTrip | MBER/Pods/leveldb-library/db/write_batch.cc:42-80 | Iterating over encoded operations delivers exactly these. |
| WriteBatches.OpBytes | MBER/Pods/leveldb-library/db/write_batch.cc:5-14 | A put is the byte 1, a deletion the byte 0, then key and value, each behind its length. |
| WriteBatches.BatchBytes | MBER/Pods/leveldb-library/db/write_batch.cc:5-27 | A batch is eight bytes of sequence number, four of count, both little-endian, and its operations. |
| WriteBatches.CutBatch | MBER/Pods/leveldb-library/db/write_batch.cc:42-80 | Cut anywhere, a batch delivers exactly the operations that lie wholly before the cut, and that is an error unless the cut lies between two of them. |
| WriteBatches.UnknownKind | MBER/Pods/leveldb-library/db/write_batch.cc:70-72 | A record of another kind ends the delivery with an error, behind all operations before it. |
| WriteQueues.BuildBatchGroup | MBER/Pods/leveldb-library/db/db_impl.cc:1260-1306 | The group takes everyone up to the first waiter that may not join: a sync write behind a leader that does not sync, or a batch that makes the group greater than 1048576 bytes, or behind a leader of at most 131072 bytes by more than 131072. The result holds their operations in queue order and only the spare batch is changed. |
| GroupCommits.CompleteWriters | MBER/Pods/leveldb-library/db/db_impl.cc:1239-1248 | The loop takes exactly the group off the queue and completes each member with the leader's status. |
| GroupCommits.StepKeepsInv | MBER/Pods/leveldb-library/db/db_impl.cc:1185-1256 | Every step of any thread keeps the queue, group, data and sync invariants. |
| GroupCommits.EveryBatchOnceInOrder | MBER/Pods/leveldb-library/db/db_impl.cc:1185-1256 | In every interleaving writers are completed once and in arrival order; log and memtable hold the batches of the successful ones once, in that order, numbered without a gap. |
| GroupCommits.OnlyTheHeadLeads | MBER/Pods/leveldb-library/db/db_impl.cc:1191-1198 | Only the head of the queue is ever in the log phase, and whoever sleeps stands behind a head that is awake. |
| GroupCommits.SyncWritesAreDurable | MBER/Pods/leveldb-library/db/db_impl.cc:1280-1285 | A successful sync write was completed by a sync leader, and the last sync covers its batch. |
| GroupCommits.CommitGroup | MBER/Pods/leveldb-library/db/db_impl.cc:1204-1245 | The leader numbers its group from the first free sequence number, logs it as one record that says so, and inserts exactly its operations under these numbers; the spare batch is empty again. |
| Scheduling.NoStuckWriter | MBER/Pods/leveldb-library/db/db_impl.cc:648-766 | In every reachable state work to do has a background call scheduled, or there is an error or a shutdown; while anyone waits, the background thread alone can finish its call, and that wakes everyone. |
| Scheduling.CallServes | MBER/Pods/leveldb-library/db/db_impl.cc:669-766 | A whole background call whose job succeeds flushes the memtable if it is full and otherwise serves the manual request; then everyone is awake, and another call is on its way exactly if work is left. |
| Scheduling.Scheduler.MakeRoom | MBER/Pods/leveldb-library/db/db_impl.cc:1310-1370 | A turn keeps the scheduling invariant. Each of the six turns has its exact condition on the state found: refused after an error; else delayed with 8 files on level 0 if the writer allows it; else on with room, unless forced; else asleep behind a frozen memtable, or behind 12 files on level 0; else the memtable is switched and a call scheduled. Nothing else changes. |
| Scheduling.Scheduler.MaybeScheduleCompaction | MBER/Pods/leveldb-library/db/db_impl.cc:648-663 | A call is on its way afterwards exactly if one was before, or if there is a frozen memtable, a manual request, a charged table or a score of one, and no error and no shutdown. |
| Scheduling.Scheduler.FinishBackgroundCall | MBER/Pods/leveldb-library/db/db_impl.cc:680-686 | Whatever a call leaves behind, its end establishes the scheduling invariant: nobody sleeps, no job runs, and a next call is on its way exactly if there is work, no error and no shutdown. |
| Scheduling.SlotLostIff | MBER/Pods/leveldb-library/db/db_impl.cc:697-766 | While a compaction for a request runs and the slot holds it, some next step can leave the compaction running without it if and only if there is an error or a shutdown; that step is the requester leaving. |
| Scheduling.SlotHeldIff | MBER/Pods/leveldb-library/db/db_impl.cc:697-766 | Over every run: from the start of a compaction for a request to its end the slot holds that same request if and only if the requester has not left. |
| Scheduling.ManualSlotCanBeGone | MBER/Pods/leveldb-library/db/db_impl.cc:618-621 | After an error the requester leaves without waiting, so the slot can be empty when the running compaction ends. |
| SkipLists.EveryStateIsSorted | MBER/Pods/leveldb-library/db/skiplist.h:337-368 | Between any two stores of any interleaving, following a level's pointers visits its keys in increasing order, and each level is a sublist of the one below. |
| SkipLists.ConcurrentSearch | MBER/Pods/leveldb-library/db/skiplist.h:260-281 | A search interleaved with insertions misses no key present when it began, and ends on a node of the list not before its target, next to one before it. |
| SkipLists.KeysOnlyJoin | MBER/Pods/leveldb-library/db/skiplist.h:337-368 | Keys never leave the list, and only inserted keys join it. |
| SkipLists.InsertLands | MBER/Pods/leveldb-library/db/skiplist.h:337-368 | A begun insertion is in the list once it has returned, so every later search counts its key. |
| SkipListCode.SkipList.FindGreaterOrEqual | MBER/Pods/leveldb-library/db/skiplist.h:260-281 | The first key not before the target, and on every level in use the last node before it. |
| SkipListCode.SkipList.FindLessThan | MBER/Pods/leveldb-library/db/skiplist.h:283-303 | The last key before the target, or the head. |
| SkipListCode.SkipList.FindLast | MBER/Pods/leveldb-library/db/skiplist.h:304-323 | The last key, or the head. |
| SkipListCode.SkipList.Insert | MBER/Pods/leveldb-library/db/skiplist.h:337-368 | The key joins exactly the levels below its height; the single stores of the call, in order, are steps of the interleaved system. |
| SkipListCode.SkipList.Contains | MBER/Pods/leveldb-library/db/skiplist.h:370-379 | True exactly for the keys in the list. |
| SkipListCode.Iterator.Prev | MBER/Pods/leveldb-library/db/skiplist.h:213-221 | The iterator moves to the key before, or becomes invalid at the first. |
| SkipListCode.Iterator.Seek | MBER/Pods/leveldb-library/db/skiplist.h:224-226 | The iterator stands on the first key not before the target. |
| Snapshots.SnapshotList.New | MBER/Pods/leveldb-library/db/snapshot.h:57-70 | Relinking appends the snapshot to the ring and keeps it in order. |
| Snapshots.SnapshotList.Delete | MBER/Pods/leveldb-library/db/snapshot.h:79-86 | Relinking takes out exactly that snapshot. |
| Snapshots.SnapshotList.Oldest | MBER/Pods/leveldb-library/db/snapshot.h:47-50 | The oldest snapshot bounds all live ones from below, which is what compactions may rely on. |
| PbEncoders.EncodeVarint | MBER/Pods/nanopb/pb_encode.c:608-628 | The bytes are the base-128 varint of the number, if they fit. |
| PbEncoders.EncodeSubmessage | MBER/Pods/nanopb/pb_encode.c:717-765 | On any stream the length and the message are taken, exactly if the message is encodable and both fit; the size never differs between the two passes. |
| PbEncoders.EncodeArray | MBER/Pods/nanopb/pb_encode.c:147-236 | Arrays of scalars go out packed under one tag, others item by item; too many items are refused. |
| PbEncoders.EncodeSlot | MBER/Pods/nanopb/pb_encode.c:341-426 | A field goes out by its rule: always, if present, its items, or if it is the chosen member of its union. |
| PbEncoders.EncodeMessage | MBER/Pods/nanopb/pb_encode.c:528-550 | On a writing or a sizing stream the message's bytes are taken, exactly if it is encodable and they fit. What the bytes are, in numbers, the rows of PbWire say. |
| PbEncoders.GetEncodedSize | MBER/Pods/nanopb/pb_encode.c:567-576 | The size is exactly the number of bytes of the encoding. |
| PbEncoders.EncodeToBuffer | MBER/Pods/nanopb/pb_encode.c:86-124 | Encoding into a buffer succeeds exactly if the bytes fit, and never writes beyond it. |
| PbWire.RecordBytes | MBER/Pods/nanopb/pb_encode.c:669-715 | A record begins with the varint of eight times the field's tag plus 0 for bool and the integer types, 1 for fixed64, 2 for strings, bytes and submessages, and 5 for fixed32; the value follows. |
| PbWire.NumberBytes | MBER/Pods/nanopb/pb_encode.c:608-667 | A bool is its number in a byte, an unsigned integer its varint, a signed one the varint of its 64-bit two's complement, a zigzag one that of 2n or of -2n-1 for a negative n, and a fixed word its four or eight bytes, least significant first. |
| PbWire.SlotBytes | MBER/Pods/nanopb/pb_encode.c:147-236 | A field gives one record if it is required or present, none if it is absent or an empty array, one with tag number plus 2, length and values for an array of numbers, and one for each item of another array. |
| PbWire.FieldsBytes | MBER/Pods/nanopb/pb_encode.c:528-550 | The encoding of a message is that of its fields one after the other, in the order of the descriptor. |
| PbRoundTrips.RefusedIff | MBER/Pods/nanopb/pb_encode.c:156-160 | An array is refused exactly if it has more items than its room, a bytes field exactly if length and bytes do not fit its room. |
| PbRoundTrips.StorableIsEncodable | MBER/Pods/nanopb/pb_encode.c:528-550 | Every structure that fits its descriptor is accepted by the encoder. |
| PbFieldIters.FieldIter.Next | MBER/Pods/nanopb/pb_common.c:20-76 | The iterator steps to the next field or wraps to the first, and its count of required fields stays that of the fields passed. |
| PbFieldIters.FieldIter.Find | MBER/Pods/nanopb/pb_common.c:78-95 | From any position the cyclic search finds a field with the tag if there is one, and otherwise comes back to where it was; without fields it finds tag zero at the terminator. |
| PbFieldIters.FieldIter.CountRequired | MBER/Pods/nanopb/pb_decode.c:1031-1046 | Walking to the end gives the number of required fields. |
| PbStreams.DecodeVarint32 | MBER/Pods/nanopb/pb_decode.c:187-247 | The stream gives the number of the grammar with its overflow rules and is left behind it. |
| PbStreams.DecodeVarint64 | MBER/Pods/nanopb/pb_decode.c:255-275 | At most ten bytes are read, and the number is theirs modulo 2^64. |
| PbStreams.SkipField | MBER/Pods/nanopb/pb_decode.c:321-331 | Exactly the field's payload is consumed, for every wire type. |
| PbStreams.MakeSubstream | MBER/Pods/nanopb/pb_decode.c:372-385 | The substream may read exactly the announced bytes of the parent. |
| PbStreams.CloseSubstream | MBER/Pods/nanopb/pb_decode.c:387-400 | The parent continues behind the substream, read or not. |
| PbDecoding.DecodeField | MBER/Pods/nanopb/pb_decode.c:406-480 | Each rule stores as the specification says: presence set, packed or single items appended within the array, the union's member chosen. |
| PbDecoding.DecodeMessage | MBER/Pods/nanopb/pb_decode.c:925-1073 | The loop accepts, fills the structure and leaves the stream exactly as the record-by-record specification. It fails exactly on a record that cannot be read, or if one of the first 64 required fields is not among the tags met. |
| PbRequired.DecodesIffComplete | MBER/Pods/nanopb/pb_decode.c:1031-1071 | For every input: decoding succeeds exactly if all records up to the end of the message can be read and the tag of each of the first 64 required fields is among theirs; what it gives is what reading gave. |
| PbDecoding.DecodeBuffer | MBER/Pods/nanopb/pb_decode.c:1075-1087 | Decoding starts from the defaults; a buffer the encoder wrote is read to its end and gives the structure back. |
| PbDecoders.DefaultsShaped | MBER/Pods/nanopb/pb_decode.c:908-919 | The defaults fit the descriptor, nested messages included. |
| PbRoundTrips.Varint32Decodes | MBER/Pods/nanopb/pb_decode.c:187-247 | Every 32-bit number in its canonical encoding passes the overflow rules and is read back. |
| PbForeign.Varint32Iff | MBER/Pods/nanopb/pb_decode.c:187-247 | The shortest encoding of a 64-bit number is taken as a 32-bit one exactly if it is one, or if it has ten bytes, the 32nd bit is set and each group of seven bits above the 35th is all zeros or all ones; the three bits between are not looked at. |
| PbRoundTrips.SignedDecode | MBER/Pods/nanopb/pb_decode.c:1329-1364 | Any 64-bit varint read into a signed field gives its low 32 bits in two's complement, or all 64 for a field of eight bytes, and is refused exactly if the field cannot hold the number. |
| PbForeign.UnsignedTaken | MBER/Pods/nanopb/pb_decode.c:1366-1388 | An unsigned field of one, two, four or eight bytes takes exactly the numbers below 2^8, 2^16, 2^32 or 2^64. |
| PbForeign.ZigZagTaken | MBER/Pods/nanopb/pb_decode.c:1390-1412 | A zigzag field takes u/2 for an even and -(u/2)-1 for an odd varint, exactly if it can hold that. |
| PbForeign.BytesTaken | MBER/Pods/nanopb/pb_decode.c:1431-1466 | A bytes field takes exactly what fits its room behind the length, and the length its type. |
| PbForeign.StringTaken | MBER/Pods/nanopb/pb_decode.c:1468-1501 | A string field takes exactly what fits with a terminator, up to the first zero byte. |
| PbForeign.FixedBytesTaken | MBER/Pods/nanopb/pb_decode.c:1527-1548 | A field of fixed length takes exactly that many bytes, or none for all zeros. |
| PbForeign.Skipped | MBER/Pods/nanopb/pb_decode.c:321-331 | An unknown value is passed over by wire type: 0 a varint, 1 eight bytes, 2 a delimited string, 5 four bytes; 3, 4, 6 and 7 are refused. |
| PbRoundTrips.ValueRoundTrip | MBER/Pods/nanopb/pb_decode.c:1329-1364 | Every value that fits its type is read back from its encoding, sign and width included. |
| PbRoundTrips.MessageRoundTrip | MBER/Pods/nanopb/pb_decode.c:925-1087 | For every width of the size type, every static descriptor with distinct positive tags and every structure that fits it, decoding the encoding gives the structure back, with the default behind each absent optional, and consumes all bytes. |
| PbRoundTrips.PrefixDecodes | MBER/Pods/nanopb/pb_decode.c:925-1073 | Bytes behind an encoded message are decoded as if its values had been in the structure from the start and its required fields had been seen. |
| PbRoundTrips.PartialDecode | MBER/Pods/nanopb/pb_decode.c:957-986 | A descriptor that shares some of the writer's fields, in any order, decodes the message exactly if the writer has each of its first 64 required fields. Then each shared field has the writer's value, each other one its default, and the message is read to its end. |
| PbRoundTrips.NullTerminated | MBER/Pods/nanopb/pb_decode.c:297-318 | A zero byte ends the message; what follows it stays on the stream. |

## Left out

- Compactions.DoCompactionWork: models no I/O error, no shutdown in the middle and no unparsable key; the size of a table under construction is a function of its entries, and the smallest snapshot is below the largest sequence number, which the loop uses as its marker for "none yet".
- Compactions.CompactionScan.IsBaseLevelForKey: answers for keys asked in non-decreasing order only, as the merge asks them.
- Recovery.Recover: does not model reading the records of a log whose end is damaged (that is the log reader's theorem), the older previous log, or reuse of the last log.
- Recovery.RecoverLogFile: a record that is a malformed batch in spite of its checksum is not modelled; the log writer produces none.
- ManifestRecords.Recover: reads records that the log reader delivered; the CURRENT file, reuse of the manifest and the compaction pointers it restores are not modelled, and internal keys are encoded by a parameter.
- VersionSets.VersionSet.UpdateStats: reads sampled by iterators are not modelled.
- VersionSets.VersionSet.Install: the linked list of versions and their reference counts are not modelled; the store keeps the pinned versions as a set.
- DbIter.Run: the merged input is a sorted sequence of entries; clearing of a large saved value and the count of bytes until the next sample are not modelled.
- StoreTheorems.ReadsSeeHistory: assumes that compactions start with closed lower inputs, for the reason given above.
- StoreTheorems.RunKeepsInv: assumes that flushes separate no entries of a running compaction, for the reason given above.
- StoreTheorems.AcknowledgedWritesSurvive: assumes both, for the reasons given above.
- LogReader.Reader.ReadRecord: reads from offset zero with checksums on; with another initial offset the reader may report drops that did not happen.
- LogReader.Reader.ReadPhysicalRecord: does not model the skipping of records before an initial offset.
- PbFieldIters.FieldIter.Next: the data and size pointers that the iterator moves along with the field are not modelled; a structure is the sequence of its fields' values.
- SkipListCode.SkipList.Insert: the random height is a parameter, and a store is visible at once to whoever loads the pointer; weaker memory orders are not modelled.
- GroupCommits.SyncWritesAreDurable: models one log; the switch to a new log is a step of the store.
- PbForeign.Varint32Iff: says nothing about encodings with needless groups of zeros at the end; the wrap-around of the bit counter after 36 bytes is not modelled.
- PbEncoders.EncodeArray: which error message goes with a refusal is not modelled beyond the kind of the status.
- PbDecoding.DecodeMessage: a record with field number zero in a message type without fields is skipped, where the code's iterator stands on the terminator; the two words of bits for required fields are a set.
- PbEncoders.EncodeMessage: sizes are unbounded, so the check for wrap-around of the byte count is not modelled.
- User keys are points of a total order, not byte strings; there are countably many byte strings, so every comparator's order embeds in it.
- File contents are sorted entry sequences: the table format, block cache, filters and compression are not part of this model, and a table's size is a parameter.
- The merging and two-level iterators are a sorted merge of their inputs; `std::sort` and `std::upper_bound` appear as an insertion sort and a scan.
- The byte format of memtable entries and of internal keys is not modelled; the trailer's order is.
- I/O failures other than a crash, `reuse_logs`, paranoid checks, statistics, logging and properties are not modelled.
- `repair.cc`, `c.cc`, `dumpfile.cc`, `filename.cc`, `builder.cc` and `table_cache.cc` are not part of this model.
- nanopb fields with callbacks, pointers, extensions, fixed counts and proto3 singular fields are not modelled.
- The application's own Swift code and the other pods are user interface, wrappers or declarations.
