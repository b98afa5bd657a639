# LevelDB 1.22 and the block-file reader: a model in Dafny

The repository reads Bitcoin Core's data: block files through its own C code, and the block index through
a vendored LevelDB 1.22. This project models the parts of both on which correct answers depend, and proves
what they promise.

**The engine.** `Engine` is the database as a state machine: memtables, a version of seven levels of
tables, snapshots, and the steps of writers and of the background thread. Its specification is the history
of all writes. `RunKeepsInvariant` and `RunKeepsReads` are the theorems about whole runs; `DbImplementation`
is the class whose methods take these steps, on skip lists and the list of snapshots;
`CompactionMeaning` says exactly when a compaction preserves what can be read. Selecting inputs (`InputSelection`, `CompactionInputs`), the compaction loop
(`CompactionWork`, `MergedInput`), lookup (`Lookup`), and the version builder with the manifest
(`VersionBuilder`, `Manifest`, `VersionEdits`) are the parts. `ManifestRuns` shows that recovery restores
the version of any run, `ManifestFile` and `ManifestRecords` that it does so from the bytes of a manifest
file that a crash cut off, and `InternalIterators` that an iterator walks the history of writes.
`StoreContents` says what all this means to a user: reads now and at a snapshot are lookups in the map that
the writes have made by then.

**A fact about this version of the code.** Boundary files are added to the upper inputs of a compaction
only. If an unselected file of the output level holds an older value of a user key whose deletion marker
is among the lower inputs, the compaction can drop the marker and bring the value back.
`CompactionPreservesReads` states this as an exact condition per user key, and `RunKeepsReads` as one over
whole runs. `Revival` is a run from an empty database in which it happens, for any two keys of which one is
so long that an output file reaches its limit at the marker, and `RevivalRun` is the same run as calls of
the database class. `ClosedUncoversNothing` is a test on user keys that rules it out.

**Another.** A memtable that becomes full during a compaction is flushed to a level that is picked without
regard to the files being written. `MidCompaction` says exactly when the version stays in order, and
`GapRun` is a run in which it does not.

**Cursors.** `DbIterator`, `Merger`, `TwoLevel` and `BlockIterator` are the bidirectional iterators. Each
refines a position in one sorted sequence under any mix of moves, direction switches included.

**Formats.** The log (`LogFormat`, `LogWriter`, `LogReader`, `LogRoundTrip`), blocks (`Blocks`,
`BlockBuilding`), filters (`Bloom`, `FilterBlocks`), tables (`TableFormat`, `TableLayout`, `TableBuilding`,
`Tables`), manifest edits and write batches are printers and parsers over byte sequences; a byte prefix of
a log is what a crash leaves, and `LogSoundness` says what is read from any file, damaged or not. Beside the
round trips, each layout is also written out byte by byte with literal numbers.

**Concurrent and linked structures.** `SkipListMachine` interleaves the single stores of one writer with
the single loads of any number of readers, and `SkipListClass` is the same list as sequential code;
`GroupCommit` is the queue of writers, whose runs `GroupWrites` turns into runs of the database; `HandleTables`, `Rings` and `LruCaches` are the reference-counted
cache with its own hash table and its two intrusive lists; `SnapshotLists` is the list of live snapshots.

**The C code.** `Glob` is the file-name matcher, which remembers only its last star; `Transactions` and
`CompactSizes` read serialised transactions (the Serialization section of BIP 144), and `TransactionBytes`
says which byte is which field.

User keys are byte strings where their bytes matter (`Bytewise`, `InternalKeys` and everything about
tables). In the engine and its iterators they are their ranks in the comparator's order, as real numbers;
`Bytewise.RankKeepsOrder` proves that this loses nothing. A table's metadata carries its entries, which is
what the table modules justify: a built table delivers exactly the entries added.

Most methods that change state are proved against a specification function or a step predicate, and what
the source promises is proved about that. `dafny verify dfyconfig.toml` checks the project.

## Model

| member | source | states |
|---|---|---|
| `Engine.RunKeepsInvariant` | src/extern/leveldb-1.22/db/db_impl.cc:491-566 | After any run of writes, memtable switches, flushes, compactions, trivial moves and snapshot steps from an empty database: levels above 0 are sorted with disjoint internal-key ranges, entries of a user key are newer in the memtables than in the tables and in a lower level than in a deeper one, higher-numbered level-0 files are newer per user key, sequence numbers are unique, file numbers are fresh, and everything stored was once written. |
| `Engine.StepKeepsInvariant` | src/extern/leveldb-1.22/db/db_impl.cc:688-767 | Each single step keeps those invariants. |
| `Engine.RunKeepsReads` | src/extern/leveldb-1.22/db/db_impl.cc:878-1018 | Over any run: reading any key at any sequence number at or above the oldest live snapshot gives, after every step, what the whole history of writes gives there, if and only if no compaction of the run has revived a key, that is uncovered a deleted value which no memtable hides. |
| `Engine.StepKeepsReads` | src/extern/leveldb-1.22/db/db_impl.cc:878-1018 | One step, from any state that satisfies the invariants and reads like the history: afterwards it still does if and only if the step is not a compaction that revives a key. |
| `StoreContents.HistoryIsMap` | src/extern/leveldb-1.22/db/db_impl.cc:1208-1225 | After any run: a read of the history at the last sequence number is a lookup in a map to which all writes of the run have been applied in order, update by update. |
| `StoreContents.HistoryKeepsReads` | src/extern/leveldb-1.22/db/db_impl.cc:1108-1114 | A read at the sequence number that was the last one in some state gives, in every later state of the run, a lookup in the map of that time: for every key, whatever was written since. |
| `StoreContents.SnapshotReadsThen` | src/extern/leveldb-1.22/db/db_impl.cc:1108-1134 | So does a read of what is stored, at a snapshot taken then and still live, or now: as long as no compaction has revived a key. |
| `StoreContents.TakenSnapshot` | src/extern/leveldb-1.22/db/db_impl.cc:1166-1169 | In any run, a snapshot that is taken is the newest and has the last sequence number. |
| `Engine.LookupInLayers` | src/extern/leveldb-1.22/db/db_impl.cc:1124-1134 | An early exit is final: the first of memtable, immutable memtable and version that knows the key has the newest visible entry of the union of all of them. |
| `Engine.MemTableGetIsExact` | src/extern/leveldb-1.22/db/memtable.cc:100-134 | One seek in a sorted run finds the newest entry of a key at or below a sequence number, and misses only if there is none. |
| `DbImplementation.DBImpl.Write` | src/extern/leveldb-1.22/db/db_impl.cc:1204-1236 | A write is exactly the write step: the batch gets the next consecutive sequence numbers and all of it enters the skip list, whatever heights are drawn. |
| `DbImplementation.DBImpl.SwitchMemTable` | src/extern/leveldb-1.22/db/db_impl.cc:1346-1366 | A full memtable becomes the immutable one and an empty one takes its place, using one file number. |
| `DbImplementation.DBImpl.CompactMemTable` | src/extern/leveldb-1.22/db/db_impl.cc:535-566 | Flushing is exactly one flush step, at the level that PickLevelForMemTableOutput chooses, and the immutable memtable is gone. |
| `DbImplementation.DBImpl.WriteLevel0Table` | src/extern/leveldb-1.22/db/db_impl.cc:491-533 | The new table goes to a level the flush step allows: level 0, or a level such that neither it nor any above it meets the range of the table. |
| `DbImplementation.DBImpl.BackgroundCompaction` | src/extern/leveldb-1.22/db/db_impl.cc:688-767 | One background turn is a flush if there is an immutable memtable, otherwise a trivial move, a compaction or nothing; it is always one step of the state machine or leaves the state alone. The compaction is the one that SetupOtherInputs makes for the level and file, or for the range; it is a trivial move exactly if it was not asked for by hand, has one file, meets none on the next level and at most ten files' worth two levels down. |
| `DbImplementation.DBImpl.ChooseCompaction` | src/extern/leveldb-1.22/db/db_impl.cc:698-714 | What is chosen satisfies the precondition of compaction and of trivial moves; a manual compaction chooses nothing only if nothing of that level overlaps the range. |
| `DbImplementation.DBImpl.MoveFile` | src/extern/leveldb-1.22/db/db_impl.cc:718-735 | Installing the edit that deletes the file at its level and adds it one level down is exactly the move step. |
| `DbImplementation.DBImpl.RunCompaction` | src/extern/leveldb-1.22/db/db_impl.cc:736-747 | Merging, dropping, cutting into output files by size and stops, and installing the edit is exactly one compaction step with those outputs. |
| `DbImplementation.DBImpl.InstallCompactionResults` | src/extern/leveldb-1.22/db/db_impl.cc:860-876 | Logging and applying the deletions of all inputs and the additions of all outputs gives the version in which the outputs replace the inputs and every other file stays. |
| `DbImplementation.DBImpl.GetSnapshot` | src/extern/leveldb-1.22/db/db_impl.cc:1166-1169 | A snapshot of the last sequence number is appended to the list, and nothing else in the database changes: the new list of numbers is written out. |
| `DbImplementation.DBImpl.ReleaseSnapshot` | src/extern/leveldb-1.22/db/db_impl.cc:1171-1175 | Unlinking a snapshot, wherever it is in the list, removes its number and leaves everything else as it is. |
| `DbImplementation.DBImpl.Get` | src/extern/leveldb-1.22/db/db_impl.cc:1100-1145 | At a live snapshot, or now, searching the skip lists and then the version gives the newest visible value of everything stored, and that of the history of all writes as long as no compaction has revived a key. |
| `DbImplementation.DBImpl.NewInternalIterator` | src/extern/leveldb-1.22/db/db_impl.cc:1062-1087 | The merging iterator over memtables and tables is over exactly what is stored, in internal-key order. |
| `InternalIterators.NewInternalIterator` | src/extern/leveldb-1.22/db/version_set.cc:230-251 | One child for each memtable, each level-0 file and each non-empty deeper level: they share no internal key, so they merge to everything stored. |
| `InternalIterators.IteratorWalksHistory` | src/extern/leveldb-1.22/db/db_impl.cc:1147-1157 | A DBIter on a merging iterator over what is stored, at a live snapshot or now, walks the live user keys of the history of all writes in ascending order, with the values the history has for them. |
| `DbImplementation.DBImpl.NewIterator` | src/extern/leveldb-1.22/db/db_impl.cc:1147-1157 | At a live snapshot, or now, the iterator handed out walks the history of all writes, as long as no compaction has revived a key. |
| `MergedCursors.MergedCursor.Entry` | src/extern/leveldb-1.22/table/merger.cc:110-118 | The entry under the merging iterator is the one at its position in the sorted union, so it can stand where an iterator over one run can. |
| `SnapshotLists.SnapshotList.New` | src/extern/leveldb-1.22/db/snapshot.h:57-74 | A new snapshot becomes the newest of the circular list, and the numbers stay ascending. |
| `SnapshotLists.SnapshotList.Delete` | src/extern/leveldb-1.22/db/snapshot.h:79-86 | Splicing a node out removes exactly this snapshot, wherever it is in the list. |
| `SnapshotLists.SnapshotList.Oldest` | src/extern/leveldb-1.22/db/snapshot.h:47-50 | The node after the head has the smallest sequence number that is still readable. |
| `CompactionMeaning.CompactionPreservesReads` | src/extern/leveldb-1.22/db/db_impl.cc:906-999 | For a user key, all reads at or above the smallest snapshot are the same before the inputs are replaced and after if and only if the compaction does not uncover that key: its newest entry is a deletion marker dropped as obsolete while an unselected file of the output level still holds an older value. |
| `CompactionMeaning.LoopKeepsExactly` | src/extern/leveldb-1.22/db/db_impl.cc:934-973 | Which entries survive does not depend on how the merge went: an entry of the inputs is dropped exactly if a newer input entry of its key is at or below the smallest snapshot, or it is a deletion marker at or below it with no file around its key more than one level down. The condition is written out. |
| `CompactionMeaning.ClosedUncoversNothing` | src/extern/leveldb-1.22/db/version_set.cc:1406-1411 | If no unselected file of the output level shares a user key with a selected one, nothing is uncovered. |
| `CompactionMeaning.SharedKeyIsSelected` | src/extern/leveldb-1.22/db/version_set.cc:1403-1411 | Files of the output level that share a user key with a selected upper file are always selected, so only keys of the lower inputs can be uncovered. |
| `CompactionMeaning.UncoveredIsRead` | src/extern/leveldb-1.22/db/db_impl.cc:941-963 | The read of an uncovered key changes from nothing to a value. |
| `Revival.ReadsCanDisagree` | src/extern/leveldb-1.22/db/version_set.cc:1406-1425 | The hypothesis cannot be left out: for any two keys and any values there is a run from an empty database after which a read at the last sequence number disagrees with the history of writes, if an output file reaches its size limit just at the deletion marker. |
| `Revival.LongKeyApplies` | src/extern/leveldb-1.22/db/db_impl.cc:988-993 | It does so, for instance, if the key is as long as a file may be. |
| `Revival.DeletedValueIsRead` | src/extern/leveldb-1.22/db/version_set.cc:1406-1425 | In the last state of that run the deleted value is read where the history has none. |
| `Revival.UncoveringCompaction` | src/extern/leveldb-1.22/db/version_set.cc:1403-1425 | The version before the last step satisfies all invariants, its level 1 can be compacted, and every compaction of that level, whatever files it selects and wherever it cuts, makes the deleted value readable. |
| `RevivalRun.DeletedValueReturns` | src/extern/leveldb-1.22/db/db_impl.cc:688-767 | The same run as calls of the database class, which makes its own choices: writes, full memtables, two manual compactions of level 1 and a snapshot in between. The flush levels are the ones picked, the outputs are cut where the loop cuts them, neither compaction is a trivial move, and Get returns the deleted value. |
| `RevivalRun.PickedLevels` | src/extern/leveldb-1.22/db/version_set.cc:491-516 | The levels of its three flushes follow from PickLevelForMemTableOutput. |
| `RevivalRun.CutOutputs` | src/extern/leveldb-1.22/db/db_impl.cc:965-993 | Its first compaction writes two files and ends the first at the marker, by the rule for cutting. |
| `CompactionWork.BaseLevelPointers.IsBaseLevelForKey` | src/extern/leveldb-1.22/db/version_set.cc:1533-1552 | With pointers that only move forward, and keys asked in ascending order, the answer is exactly whether no file deeper than the output level covers the key. |
| `CompactionWork.DoCompactionWork` | src/extern/leveldb-1.22/db/db_impl.cc:906-1001 | The outputs, end to end, hold exactly the entries that the drop rule keeps, in order, numbered consecutively. They are cut by a rule that leaves no choice: a file ends when it reaches the limit, or before an entry at which the loop is told to stop, and never otherwise. |
| `CompactionWork.HiddenMeans` | src/extern/leveldb-1.22/db/db_impl.cc:934-950 | What the loop remembers about the last entry (current user key, last sequence for the key) says exactly whether some newer entry of the same key is at or below the smallest snapshot. |
| `MergedInput.MakeInput` | src/extern/leveldb-1.22/db/version_set.cc:1237-1268 | Draining the merging iterator over one child per level-0 file and one concatenation per deeper level yields every input entry once, in internal-key order. |
| `MidCompaction.InstallAfterFlush` | src/extern/leveldb-1.22/db/db_impl.cc:908-918 | A table is flushed in the middle of a compaction, to the level picked from the version that the compaction started from. Installing the compaction then keeps all invariants if and only if that level is not the output level, or no output meets the table; nothing stored is lost in any case. |
| `MidCompaction.JoinKeepsValid` | src/extern/leveldb-1.22/db/version_set.cc:491-516 | A newer table joins a level with no shared user key above it: all invariants hold again exactly if it meets no file of the level. |
| `GapRun.OverlapHappens` | src/extern/leveldb-1.22/db/db_impl.cc:908-918 | For any three keys there is a run of the database after which the table of the middle key, flushed to the level picked for it during a compaction of the other two, is overlapped by the output. |
| `VersionSteps.FlushKeepsValid` | src/extern/leveldb-1.22/db/db_impl.cc:515-527 | Adding a flushed table at a level that PickLevelForMemTableOutput may return keeps all invariants of a version. |
| `VersionSteps.RewriteKeepsValid` | src/extern/leveldb-1.22/db/db_impl.cc:860-876 | Replacing closed inputs of two levels by outputs whose entries come from the inputs keeps all invariants of a version. |
| `Lookup.Get` | src/extern/leveldb-1.22/db/version_set.cc:326-421 | Version::Get, level by level with an early exit, equals the newest visible entry over all files of the version. |
| `Lookup.GetLevel0` | src/extern/leveldb-1.22/db/version_set.cc:348-361 | Level 0, newest file first: the first file that knows the key has the newest visible entry of the whole level. |
| `Lookup.GetDeeper` | src/extern/leveldb-1.22/db/version_set.cc:362-378 | A sorted level: the one file found by binary search decides for the level. |
| `Lookup.FindFile` | src/extern/leveldb-1.22/db/version_set.cc:88-106 | The binary search returns the boundary between files that end before the key and files that do not. |
| `Lookup.FoundFileDecides` | src/extern/leveldb-1.22/db/version_set.cc:362-378 | If the found file starts after the user key, or has no visible entry of it, no file of the level has; otherwise its newest entry is the newest of the level. |
| `Lookup.TableGetIsExact` | src/extern/leveldb-1.22/db/version_set.cc:263-276 | Keeping the first entry at or past the lookup key if it has the user key finds the newest visible entry of a table, and misses only if there is none. |
| `InputSelection.GetOverlappingInputs` | src/extern/leveldb-1.22/db/version_set.cc:519-559 | Above level 0: exactly the files that meet the range. At level 0: the files that meet the smallest range that contains the given one and that no overlapping file sticks out of; the restart loop terminates. |
| `InputSelection.SomeFileOverlapsRange` | src/extern/leveldb-1.22/db/version_set.cc:122-159 | By linear scan or by binary search: true exactly if some file meets the range. |
| `InputSelection.OverlapMeans` | src/extern/leveldb-1.22/db/version_set.cc:108-120 | A file overlaps a range exactly if some user key is in both. |
| `InputSelection.TotalFileSizeConcat` | src/extern/leveldb-1.22/db/version_set.cc:60-66 | The total size of two lists together is the sum of their total sizes, and of one file its size. |
| `InputSelection.PickLevelForMemTableOutput` | src/extern/leveldb-1.22/db/version_set.cc:491-516 | The level is at most 2; if it is above 0 neither it nor any level above it meets the range, and no level skipped has more than ten files' worth of overlap two levels further down; and it is no higher than these conditions make it. |
| `InputSelection.AddBoundaryInputs` | src/extern/leveldb-1.22/db/version_set.cc:1378-1401 | The added files form a chain, each the smallest that continues the user key on which the selection ended, and in the end no file continues it; the loop terminates. |
| `InputSelection.FindSmallestBoundaryFile` | src/extern/leveldb-1.22/db/version_set.cc:1344-1362 | The smallest file that starts after the key with the same user key, or none exactly if there is none. |
| `CompactionInputs.SetupOtherInputs` | src/extern/leveldb-1.22/db/version_set.cc:1403-1462 | What is chosen leaves no freedom: boundary files are added to the upper inputs, the lower inputs are all files that meet their range, and the upper inputs are replaced by everything that meets the range of both, closed, exactly if that is more files, is smaller than 25 files with the lower inputs, and needs no further lower file. The result is closed under boundaries and, at level 0, under overlap. |
| `CompactionInputs.ExpandInputs` | src/extern/leveldb-1.22/db/version_set.cc:1421-1451 | The expansion alone: exactly when it is taken; it keeps every file, stays closed and keeps the lower set of files. |
| `CompactionInputs.PickCompaction` | src/extern/leveldb-1.22/db/version_set.cc:1270-1322 | Whatever level and file are picked, the compaction is set up from that file, at level 0 from everything it meets directly or through other files; it is well chosen and contains the file. |
| `CompactionInputs.CompactRange` | src/extern/leveldb-1.22/db/version_set.cc:1464-1495 | A manual range gives no compaction exactly if nothing overlaps it; otherwise it is set up from the overlapping files, above level 0 from the shortest first part of them that reaches the size of a file. |
| `CompactionInputs.LimitSize` | src/extern/leveldb-1.22/db/version_set.cc:1476-1487 | The shortest prefix that reaches the limit. |
| `VersionBuilder.Builder.Apply` | src/extern/leveldb-1.22/db/version_set.cc:650-692 | The accumulated deletions and additions become those of the specification function on the edit. |
| `VersionBuilder.ApplyAddedMembers` | src/extern/leveldb-1.22/db/version_set.cc:665-691 | For an edit with fresh numbers: exactly the old files and the new ones are added, and the numbers of the new ones are no longer deleted. |
| `VersionBuilder.SaveLevel` | src/extern/leveldb-1.22/db/version_set.cc:695-737 | Merging by upper bounds gives each surviving file once, in order of smallest key and number. |
| `VersionBuilder.Builder.SaveTo` | src/extern/leveldb-1.22/db/version_set.cc:695-754 | All levels of the saved version hold exactly the base and added files that are not deleted, sorted. |
| `Manifest.ReplayEqualsLive` | src/extern/leveldb-1.22/db/version_set.cc:924-1000 | Accumulating the snapshot record and all later edits in one builder over an empty base, and saving once, gives the version that applying the edits one at a time made current, file for file in the same order, if no number is added twice. |
| `Manifest.LogAndApply` | src/extern/leveldb-1.22/db/version_set.cc:801-820 | The new version is the builder's: base plus one edit. |
| `Manifest.InstallsUnique` | src/extern/leveldb-1.22/db/version_set.cc:816-820 | The members that an edit asks for determine the version, order included. |
| `Manifest.Recover` | src/extern/leveldb-1.22/db/version_set.cc:924-1000 | Recovery accumulates all edits in one builder and saves once. |
| `Manifest.WriteSnapshot` | src/extern/leveldb-1.22/db/version_set.cc:1088-1116 | The snapshot record adds the files of the version. |
| `Manifest.SnapshotMembers` | src/extern/leveldb-1.22/db/version_set.cc:1102-1111 | It adds each file of each level at that level and nothing else. |
| `ManifestRuns.RunLogsManifest` | src/extern/leveldb-1.22/db/db_impl.cc:549-559 | The edits that the steps of any run log, from any of its states on: each is what takes the version before the step to the version after it, and no file number is put at a level twice, moves included. |
| `ManifestRuns.RunIsRecovered` | src/extern/leveldb-1.22/db/version_set.cc:924-1000 | So recovery from a manifest that was begun at any state of any run restores the version of its last state, file for file. |
| `ManifestRuns.StepInstalls` | src/extern/leveldb-1.22/db/version_set.cc:801-820 | The version after a step is the one that its edit installs. |
| `ManifestFile.CutManifestRecovers` | src/extern/leveldb-1.22/db/version_set.cc:924-1000 | From bytes to version: recovery from the manifest of any run, cut off at any byte behind its snapshot, restores the version that was current after the last step whose record is complete. |
| `ManifestRecords.NewFileMeans` | src/extern/leveldb-1.22/db/version_edit.cc:74-84 | A new-file record whose two keys are user-key bytes followed by eight bytes of tag means the file with this number and size, whose smallest and largest keys are exactly those two, in this order. |
| `ManifestRecords.RecordMeans` | src/extern/leveldb-1.22/db/version_edit.cc:66-84 | A record means an edit that deletes exactly the pairs it lists and adds its new files in order, each at its own level. |
| `ManifestRecords.RecordsExist` | src/extern/leveldb-1.22/db/db_impl.cc:549-559 | Every run whose tables have byte-string keys and whose numbers fit in 64 bits has such records, from any of its states on: they fit their encoding and mean the snapshot and the edits of the steps. |
| `ManifestRecords.RecordOf` | src/extern/leveldb-1.22/db/version_edit.cc:41-85 | For any edit of such files, a record that means it. |
| `ManifestRecords.InsertPairSorted` | src/extern/leveldb-1.22/db/version_edit.h:74-76 | Deleted files are a sorted set: inserting a pair keeps the order and adds exactly this pair. |
| `VersionEdits.EditRoundTrip` | src/extern/leveldb-1.22/db/version_edit.cc:41-205 | Decoding an encoded edit gives every field back, except that compaction pointers are appended to those already there. |
| `VersionEdits.DecodeInvertsEncode` | src/extern/leveldb-1.22/db/version_edit.cc:26-39 | Decoding into an edit gives exactly the encoded one if and only if the edit decoded into had no compaction pointers, which Clear does not remove. |
| `VersionEdits.EncodeTo` | src/extern/leveldb-1.22/db/version_edit.cc:41-85 | The bytes appended are those of the fields in the order of the specification. |
| `VersionEdits.FieldBytes` | src/extern/leveldb-1.22/db/version_edit.cc:15-62 | The bytes of the fields with a number or a name: their one-byte tags 1, 2, 3, 4 and 9, and what follows. |
| `VersionEdits.LevelFieldBytes` | src/extern/leveldb-1.22/db/version_edit.cc:60-73 | The bytes of compaction pointers (tag 5) and deleted files (tag 6). |
| `VersionEdits.NewFileBytes` | src/extern/leveldb-1.22/db/version_edit.cc:75-84 | The bytes of a new file: tag 7, level, number, size, smallest key, largest key. |
| `VersionEdits.FieldsInOrder` | src/extern/leveldb-1.22/db/version_edit.cc:41-85 | The order of the fields in a record. |
| `VersionEdits.DecodeFrom` | src/extern/leveldb-1.22/db/version_edit.cc:107-205 | The loop over tags computes the specification function, malformed input included. |
| `VersionEdits.ManifestReadsBack` | src/extern/leveldb-1.22/db/version_set.cc:929-965 | A manifest cut off at any byte reads back as the edits whose records are complete, in order. |
| `DbIterator.DBIter.Seek` | src/extern/leveldb-1.22/db/db_iter.cc:269-281 | From any state, lands on the first readable user key at or past the target. |
| `DbIterator.DBIter.SeekToFirst` | src/extern/leveldb-1.22/db/db_iter.cc:283-292 | Lands on the first readable user key. |
| `DbIterator.DBIter.SeekToLast` | src/extern/leveldb-1.22/db/db_iter.cc:294-299 | Lands on the last readable user key. |
| `DbIterator.DBIter.Next` | src/extern/leveldb-1.22/db/db_iter.cc:141-166 | From either direction, moves one readable user key forward. |
| `DbIterator.DBIter.Prev` | src/extern/leveldb-1.22/db/db_iter.cc:200-225 | From either direction, moves one readable user key back, or off the front. |
| `DbIterator.DBIter.CurrentIsLive` | src/extern/leveldb-1.22/db/db_iter.cc:64-71 | Key and value are those of the entry at the abstract position, whether they come from the internal iterator or were saved. |
| `DbIterator.DBIter.FindNextUserEntry` | src/extern/leveldb-1.22/db/db_iter.cc:168-198 | Stops at the first entry that is visible, not deleted, not overwritten and past the key to skip; runs off the end exactly if there is none. |
| `DbIterator.DBIter.FindPrevUserEntry` | src/extern/leveldb-1.22/db/db_iter.cc:227-267 | Saves the last live entry before the starting position, or finds that there is none. |
| `DbIterator.ViewIsReadableMap` | src/extern/leveldb-1.22/db/db_iter.cc:28-40 | The positions moved over are the map of live user keys at the sequence number: strictly ascending, and holding exactly the key-value pairs that can be read, with deletions, overwrites and too-new entries hidden. |
| `Merger.MergingIterator.Seek` | src/extern/leveldb-1.22/table/merger.cc:47-53 | Lands on the first entry of the sorted union at or past the target. |
| `Merger.MergingIterator.SeekToFirst` | src/extern/leveldb-1.22/table/merger.cc:31-37 | Lands on the first entry of the union. |
| `Merger.MergingIterator.SeekToLast` | src/extern/leveldb-1.22/table/merger.cc:39-45 | Lands on the last entry of the union. |
| `Merger.MergingIterator.Next` | src/extern/leveldb-1.22/table/merger.cc:55-79 | From either direction, one forward in the union. |
| `Merger.MergingIterator.Prev` | src/extern/leveldb-1.22/table/merger.cc:81-108 | From either direction, one back in the union, or off the front. |
| `Merger.MergingIterator.FindSmallest` | src/extern/leveldb-1.22/table/merger.cc:148-161 | The current child has the smallest key of all valid children. |
| `Merger.MergingIterator.FindLargest` | src/extern/leveldb-1.22/table/merger.cc:163-176 | The current child has the largest key of all valid children. |
| `Merger.MergingIterator.CurrentIsAtPos` | src/extern/leveldb-1.22/table/merger.cc:110-118 | The current child's entry is the one at the abstract position. |
| `Merger.ForwardLanding` | src/extern/leveldb-1.22/table/merger.cc:148-161 | If every child stands at its first entry that is not among the first n of the union, the smallest child is at the n-th. |
| `Merger.BackwardLanding` | src/extern/leveldb-1.22/table/merger.cc:163-176 | If every child stands at its last entry among the first n of the union, the largest child is at the one before the n-th. |
| `TwoLevel.TwoLevelIterator.Seek` | src/extern/leveldb-1.22/table/two_level_iterator.cc:82-87 | Lands on the first entry of the concatenation at or past the target, skipping empty blocks. |
| `TwoLevel.TwoLevelIterator.SeekToFirst` | src/extern/leveldb-1.22/table/two_level_iterator.cc:89-94 | Lands on the first entry of the concatenation. |
| `TwoLevel.TwoLevelIterator.SeekToLast` | src/extern/leveldb-1.22/table/two_level_iterator.cc:96-101 | Lands on the last entry of the concatenation. |
| `TwoLevel.TwoLevelIterator.Next` | src/extern/leveldb-1.22/table/two_level_iterator.cc:103-107 | One forward, across block ends. |
| `TwoLevel.TwoLevelIterator.Prev` | src/extern/leveldb-1.22/table/two_level_iterator.cc:109-113 | One back, across block starts. |
| `TwoLevel.TwoLevelIterator.SkipEmptyDataBlocksForward` | src/extern/leveldb-1.22/table/two_level_iterator.cc:115-126 | Moves to the first entry of a later block, over any number of empty ones. |
| `TwoLevel.TwoLevelIterator.CurrentEntry` | src/extern/leveldb-1.22/table/two_level_iterator.cc:32-39 | The data iterator's entry is the one at the abstract position of the concatenation. |
| `TwoLevel.SeekLands` | src/extern/leveldb-1.22/table/two_level_iterator.cc:82-87 | Searching the index and then one block finds the position that a search of the whole concatenation finds. |
| `TwoLevel.FlattenSorted` | src/extern/leveldb-1.22/table/two_level_iterator.cc:115-139 | Blocks kept apart by index keys concatenate to one sorted run. |
| `SkipLists.WalksAreSortedSublists` | src/extern/leveldb-1.22/db/skiplist.h:337-368 | Following the links of a level visits exactly its nodes in key order and ends at null, and every level is a sublist of the one below. |
| `SkipLists.PublishKeepsLists` | src/extern/leveldb-1.22/db/skiplist.h:361-367 | The one store that links a node in keeps every level a sorted sublist of the one below, and puts the entry into the set exactly at level 0. |
| `SkipLists.LoadSearches` | src/extern/leveldb-1.22/db/skiplist.h:262-281 | Each link a search loads is initialised, and either leads on before the target or is exactly where the target belongs at that level. |
| `SkipListMachine.StepKeepsInvariant` | src/extern/leveldb-1.22/db/skiplist.h:337-368 | After every single store of the writer and every single load of any reader, all levels are sorted sublists, every reader is still on its way, and no entry is lost. |
| `SkipListMachine.ContentsChangeAtOneStore` | src/extern/leveldb-1.22/db/skiplist.h:361-367 | The contents change by one insertion, at the store into level 0, and at no other step. |
| `SkipListMachine.RunKeepsInvariant` | src/extern/leveldb-1.22/db/skiplist.h:337-368 | The invariant holds after every interleaving of one writer and any number of readers. |
| `SkipListMachine.AnswerCoversKnown` | src/extern/leveldb-1.22/db/skiplist.h:285-303 | A finished search is not past any entry that was there when it began or that the reader has seen since, in either direction. |
| `SkipListMachine.SearchMissesNothing` | src/extern/leveldb-1.22/db/skiplist.h:371-378 | In any run, a search for a key that was present when it began finds that entry. |
| `SkipListMachine.ScanVisitsAll` | src/extern/leveldb-1.22/db/skiplist.h:207-232 | In any run, an iterator that walks to the end while the writer goes on has visited, in key order and each once, every entry from its start on that was there when it began. |
| `SkipListMachine.NoLoadIsUninitialised` | src/extern/leveldb-1.22/db/skiplist.h:153-158 | In any run, no reader loads a link that has not been set. |
| `SkipListClass.SkipList.FindGreaterOrEqual` | src/extern/leveldb-1.22/db/skiplist.h:262-281 | Returns the first node at or past the key, and fills prev with the last node before it at every level. |
| `SkipListClass.SkipList.FindLessThan` | src/extern/leveldb-1.22/db/skiplist.h:285-303 | Returns the last node before the key, or the head. |
| `SkipListClass.SkipList.FindLast` | src/extern/leveldb-1.22/db/skiplist.h:305-323 | Returns the last node, or the head. |
| `SkipListClass.SkipList.Contains` | src/extern/leveldb-1.22/db/skiplist.h:371-378 | True exactly if the key is in the list. |
| `SkipListClass.SkipList.Insert` | src/extern/leveldb-1.22/db/skiplist.h:337-368 | The list of entries becomes the old one with the new entry inserted in order, whatever height is drawn. |
| `SkipListClass.SkipList.Link` | src/extern/leveldb-1.22/db/skiplist.h:361-367 | Linking bottom-up through prev gives the same. |
| `SkipListClass.Iterator.Next` | src/extern/leveldb-1.22/db/skiplist.h:207-211 | One entry forward. |
| `SkipListClass.Iterator.Prev` | src/extern/leveldb-1.22/db/skiplist.h:213-222 | One entry back, by searching from the head. |
| `SkipListClass.Iterator.Seek` | src/extern/leveldb-1.22/db/skiplist.h:224-227 | The first entry at or past the target. |
| `SkipListClass.Iterator.SeekToFirst` | src/extern/leveldb-1.22/db/skiplist.h:229-232 | The first entry. |
| `SkipListClass.Iterator.SeekToLast` | src/extern/leveldb-1.22/db/skiplist.h:234-240 | The last entry. |
| `MemTables.MemTable.Add` | src/extern/leveldb-1.22/db/memtable.cc:75-98 | Encoding the entry into one buffer and inserting the buffer inserts exactly that entry into the sorted run. |
| `MemTables.MemTable.Get` | src/extern/leveldb-1.22/db/memtable.cc:100-134 | One seek answers with the newest visible entry of the user key, a value or a deletion, and finds nothing only if there is none. |
| `MemTables.Find` | src/extern/leveldb-1.22/db/memtable.cc:100-134 | One seek in the skip list answers like a search of its sorted entries. |
| `MemTables.Drain` | src/extern/leveldb-1.22/db/memtable.cc:73-73 | Iterating from the first entry to the end yields all entries in key order. |
| `MemTables.DecodeInvertsEncode` | src/extern/leveldb-1.22/db/memtable.cc:75-98 | Reading an encoded buffer gives back user key, sequence number, type and value. |
| `MemTables.BufferBytes` | src/extern/leveldb-1.22/db/memtable.cc:75-98 | The bytes of a memtable entry: length, user key, one byte of type, seven of sequence number, length, value. |
| `LogRoundTrip.TruncatedLogReadsPrefix` | src/extern/leveldb-1.22/db/log_reader.cc:56-174 | Reading any byte prefix of a log returns exactly the records that are complete in it, in order, and reports no corruption. |
| `LogRoundTrip.LogReadsBack` | src/extern/leveldb-1.22/db/log_reader.cc:56-174 | Reading a whole log returns exactly the records written. |
| `LogRoundTrip.CompleteRecordsIs` | src/extern/leveldb-1.22/db/log_reader.cc:56-174 | How many records are complete is what it should be: the longest sequence of records whose log fits. |
| `LogFormat.ReadEmitted` | src/extern/leveldb-1.22/db/log_reader.cc:56-174 | One record, written at any block offset and fragmented in any way: the reader joins it and stands right behind it, or reaches the end of file quietly if any byte is missing. |
| `LogFormat.ParsePhysical` | src/extern/leveldb-1.22/db/log_reader.cc:189-271 | A physical record parses to its type and data; the checksum matches after masking and unmasking. |
| `LogFormat.ParseCut` | src/extern/leveldb-1.22/db/log_reader.cc:192-227 | A physical record that is cut off anywhere reads as end of file, without a report. |
| `LogFormat.HeaderBytes` | src/extern/leveldb-1.22/db/log_writer.cc:82-97 | The seven header bytes: masked checksum of type and payload, length in two bytes, type. |
| `LogFormat.RecordBytes` | src/extern/leveldb-1.22/db/log_format.h:14-30 | Blocks of 32768 bytes: a record is one piece of type 1 if it fits, otherwise pieces of types 2, 3 and 4, each as long as the block allows. |
| `LogFormat.FillerBytes` | src/extern/leveldb-1.22/db/log_writer.cc:43-54 | The last six bytes or less of a block are zeros. |
| `LogSoundness.AllRecordsAreGenuine` | src/extern/leveldb-1.22/db/log_reader.cc:56-174 | Whatever a file holds: each record that is read was put together from one full physical record, or from a first, middle ones and a last, in the order of the file with nothing between them but filler, each with the right checksum, and no byte is used twice. |
| `LogSoundness.ParseIsSound` | src/extern/leveldb-1.22/db/log_reader.cc:217-271 | The parser returns one of the four types only for a physical record with the right checksum at that place. |
| `LogSoundness.DamageDropsBlock` | src/extern/leveldb-1.22/db/log_reader.cc:222-256 | A wrong checksum, or a length beyond the block, skips the rest of the block and reports its size. |
| `LogWriter.Writer.AddRecord` | src/extern/leveldb-1.22/db/log_writer.cc:34-80 | The file stays the log of the records added, this one last, empty records and block trailers included. |
| `LogWriter.Writer.Reopen` | src/extern/leveldb-1.22/db/log_writer.cc:27-30 | A writer opened at the length of an existing log continues as if it had never been closed. |
| `LogWriter.Writer.EmitPhysicalRecord` | src/extern/leveldb-1.22/db/log_writer.cc:82-108 | Header and data are appended and the block offset advances by their length. |
| `LogReader.Reader.ReadRecord` | src/extern/leveldb-1.22/db/log_reader.cc:56-174 | The loop over physical records computes the specification's reading of the file, position and reported drops included. |
| `LogReader.Reader.ReadPhysicalRecord` | src/extern/leveldb-1.22/db/log_reader.cc:189-271 | Working through a 32K buffer gives the parse of the file at the current position. |
| `LogReader.ReadTruncatedLog` | src/extern/leveldb-1.22/db/log_reader.cc:56-271 | Reading a cut-off log with the buffered reader yields the complete records and no corruption. |
| `Crc32c.ExtendConcat` | src/extern/leveldb-1.22/util/crc32c.h:14-20 | Extending by two pieces in turn is extending by both together. |
| `Crc32c.UnmaskMask` | src/extern/leveldb-1.22/util/crc32c.h:29-38 | Unmask undoes Mask. |
| `Crc32c.MaskUnmask` | src/extern/leveldb-1.22/util/crc32c.h:29-38 | Mask undoes Unmask. |
| `Crc32c.Extend` | src/extern/leveldb-1.22/util/crc32c.cc:276-290 | The loop computes the bytewise fold. |
| `Crc32c.TableEntries` | src/extern/leveldb-1.22/util/crc32c.cc:20-62 | Four entries of the source's table. |
| `Crc32c.StepShifts` | src/extern/leveldb-1.22/util/crc32c.cc:286-291 | A byte equal to the low byte of the state shifts it out. |
| `Crc32c.ComplementedEnds` | src/extern/leveldb-1.22/util/crc32c.cc:277-291 | The checksum of one byte from all ones is the complement of its table entry, and that of nothing is 0. |
| `Crc32c.MaskValues` | src/extern/leveldb-1.22/util/crc32c.h:22-32 | Masking rotates right by 15 bits and adds 0xa282ead8. |
| `Varints.Varint32RoundTrip` | src/extern/leveldb-1.22/util/coding.cc:47-140 | Every 32-bit number decodes from its encoding, whatever follows. |
| `Varints.Varint64RoundTrip` | src/extern/leveldb-1.22/util/coding.cc:81-169 | Every 64-bit number decodes from its encoding of at most ten bytes. |
| `Varints.EncodeVarint32` | src/extern/leveldb-1.22/util/coding.cc:47-73 | The unrolled branches produce the general varint. |
| `Varints.EncodeVarint64` | src/extern/leveldb-1.22/util/coding.cc:81-90 | The loop produces the general varint. |
| `Varints.GetVarint32Ptr` | src/extern/leveldb-1.22/util/coding.cc:112-128 | The shift-and-accumulate loop computes the recursive decoding, failures included. |
| `Varints.VarintBytes` | src/extern/leveldb-1.22/util/coding.cc:47-90 | The bytes of a varint: seven bits each, lowest first, with the top bit set on all but the last. |
| `Varints.VarintValues` | src/extern/leveldb-1.22/util/coding.cc:112-128 | The numbers that one, two and three bytes decode to, shortest form or not. |
| `Varints.EndlessVarint` | src/extern/leveldb-1.22/util/coding.cc:112-128 | Bytes that all have the top bit set decode to nothing. |
| `Coding.FixedRoundTrip` | src/extern/leveldb-1.22/util/coding.cc:9-33 | Little-endian numbers of any width read back. |
| `Coding.FixedBytes` | src/extern/leveldb-1.22/util/coding.cc:9-33 | The two, four or eight bytes of a number, written out. |
| `Coding.FromFixedAt` | src/extern/leveldb-1.22/util/coding.h:60-100 | The number at a position of a buffer as a sum of its bytes times powers of 256. |
| `Coding.BytesRoundTrip` | src/extern/leveldb-1.22/util/coding.h:60-100 | Bytes are the encoding of the number they make. |
| `Blocks.DecodesEntry` | src/extern/leveldb-1.22/table/block.cc:54-74 | Wherever an entry stands in a block, decoding gives its lengths and the place of its key suffix and value, on the one-byte fast path and on the varint path. |
| `Blocks.ShortEntryBytes` | src/extern/leveldb-1.22/table/block_builder.cc:91-99 | The bytes of an entry with short lengths: three lengths, the rest of the key, the value. |
| `Blocks.RestartPoint` | src/extern/leveldb-1.22/table/block.cc:97-100 | The restart array of a finished block holds the offsets of the restart entries. |
| `BlockBuilding.BlockBuilder.Add` | src/extern/leveldb-1.22/table/block_builder.cc:72-106 | Sharing a prefix with the previous key, and restarting when the counter says so, adds this pair to what the block decodes to. |
| `BlockBuilding.BlockBuilder.Finish` | src/extern/leveldb-1.22/table/block_builder.cc:62-70 | The finished bytes are a block of exactly the pairs added, with a restart point every so many entries as asked for, and all other keys sharing as much with the one before as they can; it is as long as the size estimate said. |
| `BlockIterator.BlockIter.Seek` | src/extern/leveldb-1.22/table/block.cc:163-201 | Binary search over restart points, then a linear scan, lands on the first key at or past the target. |
| `BlockIterator.BlockIter.Next` | src/extern/leveldb-1.22/table/block.cc:137-140 | One pair forward. |
| `BlockIterator.BlockIter.Prev` | src/extern/leveldb-1.22/table/block.cc:142-161 | One pair back, by going back to a restart point and forward again; it undoes Next. |
| `BlockIterator.BlockIter.SeekToFirst` | src/extern/leveldb-1.22/table/block.cc:203-206 | The first pair. |
| `BlockIterator.BlockIter.SeekToLast` | src/extern/leveldb-1.22/table/block.cc:208-213 | The last pair. |
| `BlockIterator.BlockIter.ParseNextKey` | src/extern/leveldb-1.22/table/block.cc:224-251 | Rebuilds the next key from the shared prefix, and ends exactly at the restart array. |
| `BlockIterator.BlockIter.SearchRestarts` | src/extern/leveldb-1.22/table/block.cc:168-192 | All keys before the restart point that is found are before the target. |
| `Bloom.BloomFilterPolicy.CreateFilter` | src/extern/leveldb-1.22/util/bloom.cc:28-54 | For any hash function, number of keys and bits per key: every key the filter is made from matches it, and what was in the destination stays. The filter has the size asked for, at least 64 bits, no bit set but the probes of its keys, and the number of probes as its last byte. |
| `Bloom.BloomFilterPolicy.KeyMayMatch` | src/extern/leveldb-1.22/util/bloom.cc:56-80 | The probe loop decides the matching that CreateFilter guarantees, reserved probe counts included. |
| `Bloom.ProbeNext` | src/extern/leveldb-1.22/util/bloom.cc:46-52 | Each probe adds the hash rotated right by 17 bits, in 32 bits. |
| `Bloom.BitWeights` | src/extern/leveldb-1.22/util/bloom.cc:49-50 | Which bit of which byte a position is. |
| `FilterBlocks.FilterBlockBuilder.StartBlock` | src/extern/leveldb-1.22/table/filter_block.cc:21-27 | Filters are generated up to the base of the block's offset. |
| `FilterBlocks.FilterBlockBuilder.AddKey` | src/extern/leveldb-1.22/table/filter_block.cc:29-33 | The key belongs to the filter of the current block offset. |
| `FilterBlocks.FilterBlockBuilder.Finish` | src/extern/leveldb-1.22/table/filter_block.cc:35-49 | In the finished bytes every added key is covered by the filter that its block's offset selects. |
| `FilterBlocks.FilterBlockBuilder.GenerateFilter` | src/extern/leveldb-1.22/table/filter_block.cc:51-74 | The next filter is the one the policy makes for the keys so far, or an empty one without keys, and starts at the recorded offset. |
| `FilterBlocks.ContentsBytes` | src/extern/leveldb-1.22/table/filter_block.cc:35-49 | The finished bytes: the filters, their offsets in four bytes each, the offset of these, and 11. |
| `TableLayout.FilterKeyIs` | src/extern/leveldb-1.22/table/table_builder.cc:213-221 | The key under which a filter is found: "filter." and the name of the policy, character by character. |
| `FilterBlocks.FilterBlockReader.KeyMayMatch` | src/extern/leveldb-1.22/table/filter_block.cc:90-104 | Over the bytes of a finished filter block: true for every key of the filter that the offset selects, and true past the last filter. |
| `Bytewise.RankKeepsOrder` | src/extern/leveldb-1.22/util/comparator.cc:25-27 | Bytewise order embeds in the order of the reals, so user keys can be taken as ranks; equal ranks are equal keys. |
| `Bytewise.FindShortestSeparator` | src/extern/leveldb-1.22/util/comparator.cc:29-50 | The key is left alone, or becomes one no longer and strictly between the two; and which of the two it is: where the keys first differ, the byte is raised by one if that keeps it below the other. |
| `Bytewise.FindShortSuccessor` | src/extern/leveldb-1.22/util/comparator.cc:52-64 | The key is left alone, or becomes one no longer and strictly larger, namely up to its first byte below 255 with that byte raised by one. |
| `Bytewise.CompareMeans` | src/extern/leveldb-1.22/include/leveldb/slice.h:101-111 | One byte string is before another exactly if the first byte in which they differ is smaller, or it is a proper beginning of the other. |
| `InternalKeys.CompareIsLess` | src/extern/leveldb-1.22/db/dbformat.cc:47-67 | For all user keys, sequence numbers and types: comparing the bytes of two internal keys is comparing first the ranks of the user keys, then sequence numbers and types with the newer first; it gives 0 only for equal keys. |
| `InternalKeys.KeyOfEncoded` | src/extern/leveldb-1.22/db/dbformat.cc:15-25 | The bytes of an internal key are read as exactly its user key, sequence number and type. |
| `Keys.LessMeans` | src/extern/leveldb-1.22/db/dbformat.cc:47-67 | The order of internal keys in terms of user keys, sequence numbers and types, without the packed tag. |
| `InternalKeys.FindShortestSeparator` | src/extern/leveldb-1.22/db/dbformat.cc:69-86 | The internal key is left alone, or its user key moves strictly between the two and its tag sorts before all others. |
| `InternalKeys.FindShortSuccessor` | src/extern/leveldb-1.22/db/dbformat.cc:88-101 | The internal key is left alone, or gets a larger user key and the tag that sorts first. |
| `InternalKeys.CutSeparates` | src/extern/leveldb-1.22/db/dbformat.cc:51-86 | Such a cut separates: nothing at or before it has the user key of anything at or past the limit. |
| `TableFormat.HandleRoundTrip` | src/extern/leveldb-1.22/table/format.cc:15-29 | A block handle decodes from its encoding. |
| `TableFormat.FooterRoundTrip` | src/extern/leveldb-1.22/table/format.cc:31-63 | A footer decodes to its two handles, padding and magic number included. |
| `TableFormat.ReadStored` | src/extern/leveldb-1.22/table/format.cc:64-141 | An uncompressed block that was stored with type and masked checksum reads back, with or without verification. |
| `TableFormat.ReadIsStored` | src/extern/leveldb-1.22/table/format.cc:64-141 | With checking, a block is read exactly if these contents were stored there with type 0 and their checksum. |
| `TableFormat.TrailerBytes` | src/extern/leveldb-1.22/table/table_builder.cc:177-194 | The five bytes behind a block: type 0 and the masked checksum of contents and type. |
| `TableFormat.FooterBytes` | src/extern/leveldb-1.22/table/format.cc:31-42 | The 48 bytes of a footer: both handles as varints, zeros, and the magic number byte by byte. |
| `TableLayout.IndexSearch` | src/extern/leveldb-1.22/table/table.cc:216-244 | Through shortened separators, a search of the index selects the block of the first entry at or past the target, or the one before it, and then that entry has another user key. |
| `TableLayout.SeparatorSeparates` | src/extern/leveldb-1.22/table/table_builder.cc:102-109 | Each index key is at or past all entries of its block and before all later ones. |
| `TableBuilding.TableBuilder.Add` | src/extern/leveldb-1.22/table/table_builder.cc:94-123 | For keys in increasing internal-key order the builder's entries grow by this one, and all parts written so far stay what they are; a data block is written when it has reached its size, and only then. |
| `TableBuilding.TableBuilder.Flush` | src/extern/leveldb-1.22/table/table_builder.cc:125-139 | Writing the data block loses no entry. |
| `TableBuilding.TableBuilder.Finish` | src/extern/leveldb-1.22/table/table_builder.cc:198-253 | The finished file is a table of exactly the entries added: data blocks, filter, metaindex, index and footer where the reader looks for them. |
| `TableBuilding.TableBuilder.WriteRawBlock` | src/extern/leveldb-1.22/table/table_builder.cc:177-194 | Contents, type and masked checksum are appended and the offset advances. |
| `Tables.Table.Open` | src/extern/leveldb-1.22/table/table.cc:38-134 | Any finished table opens, with its filter if the policy is given. |
| `Tables.Table.InternalGet` | src/extern/leveldb-1.22/table/table.cc:216-244 | Filter or not, the first entry at or past the target is delivered whenever it has the target's user key, and nothing else is ever delivered. |
| `Tables.Table.Get` | src/extern/leveldb-1.22/db/table_cache.cc:100-112 | A lookup of a user key at a sequence number, from the bytes of the file: the value, or the deletion, of the entry of that user key with the largest sequence number at or below the given one; nothing only if the table has no such entry. |
| `Tables.SeekFindsNewest` | src/extern/leveldb-1.22/db/version_set.cc:258-273 | The first entry at or past the lookup key is the one of that user key with the largest sequence number at or below the given one; if it has another user key, no entry is visible. |
| `Tables.AnswersAsFile` | src/extern/leveldb-1.22/db/version_set.cc:258-273 | Such an answer is the one that the lookup in versions takes from the file with these entries. |
| `WriteBatches.BatchRoundTrip` | src/extern/leveldb-1.22/db/write_batch.cc:42-80 | Inserting an encoded batch inserts its updates in order with consecutive sequence numbers, and the count matches. |
| `WriteBatches.Iterate` | src/extern/leveldb-1.22/db/write_batch.cc:42-80 | The loop computes the specification's parse, malformed batches included. |
| `WriteBatches.BatchLayout` | src/extern/leveldb-1.22/db/write_batch.cc:5-27 | The header of a batch: eight bytes of sequence number, four of count. |
| `WriteBatches.BodyBytes` | src/extern/leveldb-1.22/db/write_batch.cc:98-109 | The bytes of a put (type 1) and of a deletion (type 0). |
| `WriteBatches.EntriesAre` | src/extern/leveldb-1.22/db/write_batch.cc:117-130 | The i-th update is inserted at the batch's sequence number plus i, with its type, key and value. |
| `WriteBatches.WriteBatch.Put` | src/extern/leveldb-1.22/db/write_batch.cc:98-103 | The batch has this put at its end and the same sequence number. |
| `WriteBatches.WriteBatch.Delete` | src/extern/leveldb-1.22/db/write_batch.cc:105-109 | The batch has this deletion at its end. |
| `WriteBatches.WriteBatch.Append` | src/extern/leveldb-1.22/db/write_batch.cc:144-148 | The batch is followed by the updates of the other one. |
| `WriteBatches.WriteBatch.SetSequence` | src/extern/leveldb-1.22/db/write_batch.cc:94-96 | Overwriting the header changes the sequence number and no update. |
| `WriteBatches.WriteBatch.InsertInto` | src/extern/leveldb-1.22/db/write_batch.cc:132-137 | A batch that was built inserts without an error exactly its updates. |
| `GroupCommit.BuildBatchGroup` | src/extern/leveldb-1.22/db/db_impl.cc:1260-1306 | The group is a prefix of the queue, its batch their concatenation; no sync write joins a non-sync leader, and a group stays within the size bound. It ends only at the end of the queue, before such a sync write, or before a batch that would exceed 1 MB, or 128 KB more than a first batch of at most 128 KB. |
| `GroupCommit.GroupContents` | src/extern/leveldb-1.22/db/db_impl.cc:1286-1303 | Appending the members' batches to an empty one and setting the sequence number gives the bytes that the log step writes. |
| `GroupCommit.StepKeepsInvariant` | src/extern/leveldb-1.22/db/db_impl.cc:1185-1257 | Each step of the queue (arrive, lead, commit, finish) keeps the bookkeeping of groups, sequence numbers, log and memtable. |
| `GroupCommit.RunKeepsInvariant` | src/extern/leveldb-1.22/db/db_impl.cc:1185-1257 | So does every run. |
| `GroupCommit.WritesAreLinear` | src/extern/leveldb-1.22/db/db_impl.cc:1200-1257 | After any run without errors: all finished writers, in the order they arrived, have been applied exactly once, with consecutive sequence numbers from 1. |
| `GroupCommit.RangesAreDisjoint` | src/extern/leveldb-1.22/db/db_impl.cc:1208-1211 | The sequence ranges of two groups do not meet. |
| `GroupCommit.EveryoneIsTold` | src/extern/leveldb-1.22/db/db_impl.cc:1239-1248 | Every member of a group is finished exactly once, in queue order, with the status of its leader: for each member of each group, its place among the answers and the status there. |
| `GroupCommit.SyncIsKept` | src/extern/leveldb-1.22/db/db_impl.cc:1276-1286 | Every sync write is in a group whose leader syncs. |
| `GroupCommit.FailedSyncStopsWrites` | src/extern/leveldb-1.22/db/db_impl.cc:1228-1233 | After a failed sync, in any run, the group that was to be synced and every later group fail, and nothing is logged or inserted any more. |
| `GroupCommit.NothingElseFails` | src/extern/leveldb-1.22/db/db_impl.cc:1206-1225 | While all syncs succeed, the only groups that fail are those whose log record could not be written. |
| `LogRecovery.ReplayRestores` | src/extern/leveldb-1.22/db/db_impl.cc:418-457 | Replaying the log gives exactly the entries of the memtable if and only if no failed group has left updates in the log; it never gives fewer, and it finds no sequence number that was not used. |
| `LogRecovery.CrashKeepsWholeGroups` | src/extern/leveldb-1.22/db/db_impl.cc:418-457 | After a crash that cuts the log anywhere, in any run, replay restores the writes of the logged groups among some first groups, in order, each group as a whole. |
| `LogRecovery.LogCoversMemory` | src/extern/leveldb-1.22/db/db_impl.cc:1213-1225 | What has been inserted is in the log, and what else the log has are updates of groups whose sync failed. |
| `GroupWrites.QueueRunIsDatabaseRun` | src/extern/leveldb-1.22/db/db_impl.cc:1200-1257 | A run of the queue without errors is a run of the database that writes the groups one after the other: the same sequence numbers, and what the queue has inserted is what the database has been told to write. |
| `LogRecovery.RecoverLogFile` | src/extern/leveldb-1.22/db/db_impl.cc:418-457 | The recovery loop computes that replay. |
| `HandleTables.HandleTable.FindPointer` | src/extern/leveldb-1.22/util/cache.cc:114-120 | The walk ends at the slot of the entry with this key and hash, or at the end of its chain exactly if there is none. |
| `HandleTables.HandleTable.Lookup` | src/extern/leveldb-1.22/util/cache.cc:74-76 | The entry that the key map has, or none. |
| `HandleTables.HandleTable.Insert` | src/extern/leveldb-1.22/util/cache.cc:78-92 | The key map gets this entry and the replaced one, if any, is returned; the table grows when there are more entries than chains, which changes nothing else. |
| `HandleTables.HandleTable.Remove` | src/extern/leveldb-1.22/util/cache.cc:94-102 | The key map loses this key and the entry is returned. |
| `HandleTables.HandleTable.Resize` | src/extern/leveldb-1.22/util/cache.cc:122-146 | Rehashing every chain in place keeps the key map. |
| `Rings.RemoveKeepsRing` | src/extern/leveldb-1.22/util/cache.cc:239-242 | Unlinking a node leaves a circular list of the others in order. |
| `Rings.AppendKeepsRing` | src/extern/leveldb-1.22/util/cache.cc:244-250 | Linking a node before the head makes it the newest. |
| `Rings.RemoveLeavesOther` | src/extern/leveldb-1.22/util/cache.cc:239-242 | The other list does not notice. |
| `LruCaches.RefKeeps` | src/extern/leveldb-1.22/util/cache.cc:217-223 | Taking a reference keeps: usage is the charge of all cached entries, each cached entry is on exactly the list that its references decide, references are the clients plus one for the cache, and no deleter runs twice. |
| `LruCaches.UnrefKeeps` | src/extern/leveldb-1.22/util/cache.cc:225-237 | Giving a reference back keeps all of this. |
| `LruCaches.EraseKeeps` | src/extern/leveldb-1.22/util/cache.cc:307-316 | Taking an entry out of the cache keeps all of this, and unlists that entry only. |
| `LruCaches.NewKeeps` | src/extern/leveldb-1.22/util/cache.cc:272-297 | A new handle keeps all of this. |
| `LruCaches.LRUCache.Insert` | src/extern/leveldb-1.22/util/cache.cc:266-303 | The new entry has the key, the hash and the charge that the caller passed, one reference for the caller and one for the cache, written out; if there is capacity it replaces the one with its key; then the oldest unheld entries are freed, oldest first and no more than needed, until usage is within capacity or nothing is left to evict. Usage is the sum of the charges passed for what is cached. |
| `LruCaches.UsageIsGiven` | src/extern/leveldb-1.22/util/cache.cc:266-303 | After any operations, usage is the sum of the charges that callers passed to Insert for the entries that are still cached, each counted once. |
| `LruCaches.LRUCache.Lookup` | src/extern/leveldb-1.22/util/cache.cc:252-259 | The cached entry of the key, now held by one more client and not evictable, or none; the order of the evictable entries stays. |
| `LruCaches.LRUCache.Release` | src/extern/leveldb-1.22/util/cache.cc:261-264 | The client's reference is gone; the deleter runs exactly if it was the last one, and a cached entry that nobody holds any more becomes the last to be evicted. |
| `LruCaches.LRUCache.Erase` | src/extern/leveldb-1.22/util/cache.cc:318-321 | The key is no longer cached; a held entry lives on until its last release. |
| `LruCaches.LRUCache.EvictOldest` | src/extern/leveldb-1.22/util/cache.cc:293-300 | The oldest unheld entry is freed, and nothing else changes. |
| `Glob.WildcardMatch` | src/files.c:25-53 | The loop with one remembered star terminates; true only for a match, and for strings without a star exactly for a match. |
| `Glob.MatchesConcat` | src/files.c:25-53 | What a pattern means: two patterns in a row match the strings that split into a match of each. |
| `Glob.OneCharacter` | src/files.c:25-53 | A star matches everything, a question mark any one character, any other character itself. |
| `Glob.MatchIsExactIffNoStar` | src/files.c:25-53 | The loop is right for all patterns on a string if and only if the string contains no star. |
| `Glob.StarInStringFails` | src/files.c:25-53 | For every string with a star, a pattern that matches and that the loop rejects. |
| `Glob.Sound` | src/files.c:25-53 | From any state of the loop, returning true means that the rest matches here or from a later start of the remembered star. |
| `Glob.Complete` | src/files.c:25-53 | From any state the loop can be in, backtracking to the last star only misses no match in a string without stars. |
| `CompactSizes.RoundTrip` | src/bigInts.c:122-230 | Every 64-bit number decodes from its encoding. |
| `CompactSizes.DecodeBytes` | src/bigInts.c:166-230 | The four forms byte by byte: a byte below 253, or 0xfd, 0xfe, 0xff followed by two, four or eight bytes with the lowest first; shorter data gives no number. |
| `CompactSizes.EncodeBytesOf` | src/bigInts.c:122-165 | The bytes written for a number, in the shortest of the forms. |
| `CompactSizes.CompactSizeDecode` | src/bigInts.c:166-230 | The branches give the number and its size; on data that ends too early, the size of the data and no value; without data, 0. |
| `Transactions.TransactionRoundTrip` | src/blkdat.c:25-111 | Wherever a serialised transaction stands, reading gives it back with the offset at its exact end if and only if its counts and lengths are below 2^16, its numbers in range, and it is not a legacy transaction with outputs but no inputs; otherwise it does not come back at all. |
| `Transactions.WhatIsReadFits` | src/blkdat.c:25-111 | Whatever the bytes are, a transaction that is read has counts and lengths below 2^16 and one witness per input if any. |
| `Transactions.TransactionsReadBack` | src/blkdat.c:25-111 | A list of transactions reads back with all inputs, outputs, witnesses and locktimes, up to the last byte, if and only if each of its members does. |
| `Transactions.ReadTxn` | src/blkdat.c:25-121 | The nested loops compute the specification's reading. |
| `TransactionBytes.InputBytes` | src/blkdat.c:56-73 | Byte positions of an input: 32 bytes of hash, the output index at 32, a length of any form at 36 and the script behind it, four bytes of sequence number; where the reader stands afterwards. |
| `TransactionBytes.ShortInput` | src/blkdat.c:56-73 | An input with a length byte below 253, given as bytes: exactly these fields, and 41 bytes more than the script. |
| `TransactionBytes.LongLength` | src/bigInts.c:180-200 | A script length of 253 and more stands in two bytes behind 0xfd. |
| `TransactionBytes.OutputBytes` | src/blkdat.c:79-90 | Byte positions of an output: eight bytes of amount, a length, the script. |
| `TransactionBytes.ShortOutput` | src/blkdat.c:79-90 | An output with a length byte below 253, given as bytes. |
| `TransactionBytes.PlainTransaction` | src/blkdat.c:25-121 | Every byte position of a transaction with one input and one output: version, counts, input, output and lock time. |
| `TransactionBytes.WitnessTransaction` | src/blkdat.c:40-121 | The same with marker, flag and a witness. |
| `TransactionBytes.ManyInOrder` | src/blkdat.c:56-111 | Lists are read in order, each member from where the one before it ended. |
| `TransactionBytes.CountWraps` | src/blkdat.c:53-53 | Counts and lengths are cut to 16 bits. |
| `Transactions.MarkerAndFlag` | src/blkdat.c:40-54 | What stands where the reader looks for marker and flag, and when it is mistaken for them. |

## Left out

- The steps of the database machine and of its class are atomic: flushes and compactions do not interleave there. What an interleaved flush does to the version is MidCompaction.InstallAfterFlush.
- Concurrency of the database object beyond the writer queue: one background thread, and the mutex makes its steps atomic. Waiting in MakeRoomForWrite, sleeps and triggers are not modelled; a step may be taken whenever its guard holds.
- That no compaction revives a deleted value is not proved, because it is false of this version of the code: Revival.ReadsCanDisagree is a run that does it, and Engine.RunKeepsReads and CompactionMeaning.CompactionPreservesReads say exactly when it happens.
- CompactionMeaning.ClosedUncoversNothing: one direction, because it is a test on user keys that is stronger than needed; the exact condition is in CompactionMeaning.CompactionPreservesReads.
- CompactionInputs.PickCompaction: level and file are arbitrary, so compaction scores, compaction pointers and seek charging are not modelled.
- CompactionWork.DoCompactionWork: before which entries the loop is told to stop for the sake of grandparents, and what a table of given entries takes on disk, are parameters; one function gives both the size that is compared with the limit and the size that is recorded; compaction statistics are not modelled.
- DbImplementation.DBImpl.Write: the memtable part of a write; the queue, the log and syncing are GroupCommit and LogRecovery, and GroupWrites connects the two machines.
- Revival.ReadsCanDisagree: the size of a table on disk is a parameter with the stated bounds, not the one computed by the table builder of TableBuilding.
- MergedInput.MakeInput: a level's concatenation is one sorted run; that a two-level iterator over its files is a cursor over that run is TwoLevel's matter.
- Manifest.LogAndApply: the version part; writing the record to the manifest file and the file numbers are VersionEdits and ManifestRuns.
- Errors from files, corrupted tables and manifests, failed writes of the manifest, unparsable internal keys, Repair, DestroyDB, property queries, sampling of reads and approximate sizes.
- Files are byte sequences; the table cache, file names, deletion of obsolete files and ReuseManifest are not modelled.
- VersionBuilder.Edit holds the files of an edit; log numbers, next file number and compaction pointers are part of VersionEdits only. SaveTo's debug test for overlap is left out, since the invariants of a version imply it.
- Iterators assume that their children stay as they are while they are used; cleanup functions, status and IteratorWrapper's caching of validity are not modelled. NewMergingIterator's special cases for no child and one child are not modelled.
- DbIterator.DBIter: the early return in Next after a change of direction is left out, since it is proved never to be taken.
- TwoLevel.TwoLevelIterator: blocks are given as sorted runs, and a handle is the position of its index entry.
- The skip list's arena is a sequence of nodes, and steps are sequentially consistent; the random height is a parameter.
- MemTables.MemTable.Add: the skip list keeps the decoded entry of the buffer, and its comparator compares decoded entries by rank; memory use is not modelled. In the engine's class, memtables are skip lists of entries and their iterators are cursors over them.
- The log reader starts at the beginning of the file: initial offsets, resynchronisation and LastRecordOffset are not modelled. Reports carry the number of bytes, not the reason.
- LogReader.Reader.ReadPhysicalRecord: refilling the buffer is a separate method instead of a branch of the loop.
- Crc32c.Extend: the accelerated and four-byte-stride paths are not modelled; the bytewise step is the definition, with table entries computed from the polynomial.
- Tables.Table.Open: for files below 4 GiB, so that the 32-bit offsets inside blocks and filters suffice; options bound table files far below that.
- Snappy compression, the block cache in Table::BlockReader, the two-level iterator over a table's bytes and ApproximateOffsetOf.
- Bloom.BloomFilterPolicy: the hash function and the number of probes are parameters (the source computes the number of probes from a floating-point product and clamps it to 1 to 30).
- FilterBlocks.FilterBlockBuilder: the internal filter policy strips the tag when a filter is made; here the table builder passes the user key, so the same bytes are hashed.
- LruCaches.LRUCache: mutexes, sharding, SetCapacity, Prune and the destructor are not modelled; freeing an entry is recorded as one call of its deleter. A handle's cache fields, list links and hash link are kept in separate maps.
- GroupCommit.WritesAreLinear: for runs without write errors; after an error, GroupCommit.EveryoneIsTold still holds. A failed append leaves the modelled log as it was, where the source may have written a part of the record, which a reader of the log takes for its end or for a corruption. Switching the memtable and the log between groups is not part of this machine.
- LogRecovery.RecoverLogFile: flushing a full memtable to level 0 in the middle of a replay is not modelled.
- LogRecovery.ReplayRestores: one log; recovery of several logs in order is not modelled.
- Transactions.ReadTxn: a count or length is taken to be stored modulo 2^16, leaving its neighbours alone; reading past the end of the buffer, which the source does not test for, is no result; identifiers, sizes and SHA-256 are not modelled.
- EncodeVarint128 and DecodeVarint128 disagree about continuation bytes and have no round trip; date queries, printing and directory listing are not modelled.
