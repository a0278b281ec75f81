# Verification of the storage engine and the message codec

This project models, in Dafny, two vendored libraries of the FlowerGiftApp: the LevelDB storage engine
(`Pods/leveldb-library`) and the nanopb codec (`Pods/nanopb`), and proves what they promise.

**The engine.** An entry is a user key, a sequence number, a kind (value or deletion) and a value, in
the order of internal keys; a table is a strictly sorted run of entries; a version is seven levels of
tables. What a read means is `ReadSpec.Read`: the newest entry at or below the snapshot, where a
deletion means absent. `EngineState` is the whole engine as a step system: each region the source runs
under its mutex is one step, a compaction is picked, opens its outputs and installs them in separate
steps with anything in between, and a crash can strike between steps or in the middle of an append to
the log. `EngineProof`, `DbGet` and `LogReplay` prove for every run that reads see the history and that
no crash loses a logged write. The functions that choose compaction inputs, place flushes, search a
version, run the merge loop and replay logs are methods on the source's own state, proved against
specifications of their own (`VersionSet`, `VersionQueries`, `CompactionWork` and `OutputCuts`, `VersionGet`,
`LogReplay` and `ReplayCuts`), and `CompactionJob` shows that together they meet what the steps demand. `LogBytes` and
`ManifestBytes` carry recovery down to the bytes of the log files and of the manifest: `ManifestRun`
proves that the edits a run commits rebuild its levels.

Above the byte level a user key is its rank among all keys, a real number: a comparator's order is all
the engine uses of it, and `InternalKeys.RankOrder` gives the ranks of byte strings.

**The structures underneath.** The iterators (`DbIter`, `Merger`, `TwoLevel`, `IteratorStack`), the log
(`LogFormat`, `LogReading`, `LogFile`, `LogReopen`), blocks and tables (`BlockFormat` to `TableLookup`, with
`Comparators`, `Bloom` and `FilterBlock`), the skip list with readers that take no lock (`SkipList`),
the cache (`HandleTable`, `LruCache`), the write queue (`GroupCommit`, `WriteBatch`) and the manifest
(`VersionEdit`, `VersionReplay`) each refine a sequence, a map, a set or a cursor.

**The codec.** `PbMessages` defines the wire format of a message over any nested field table, after the
Protocol Buffers Encoding specification, sections "Base 128 Varints", "Signed Integers" and "Message
Structure". `PbEncode` and `PbDecode` are the encoder, with its counting and its writing pass, and the
decoder, and `PbRoundTrip` says when a message comes back. `PbDecoding` says what any bytes decode to, and
`PbUnknown` that fields the table does not have change nothing.

`dafny verify dfyconfig.toml` checks the whole project.

## Findings

Where the code does not do what it is for, the project has an input and the condition under which it does.

- **Straddled tombstone.** `SetupOtherInputs` closes only the source level's inputs under boundary
  files (`db/version_set.cc:1407`, `1422`). If an input of the next level ends in a deletion and the
  file behind it begins with the value it deletes, the deletion can be dropped without the value, and
  the key comes back. `StraddleRun.StraddleIsReachable` is a run that ends in such a version,
  `Straddle.StraddledTombstoneResurrects` the compaction then picked; `Jobs.ReadsSurviveUnlessStraddled`
  and `Straddle.ReachableUnlessStraddled` give the exact condition on the files. The step system leaves
  out the commits that are straddled; `Straddle.CommitsKeepReads` proves that they are exactly the commits
  that change a read.
- **Reusing a torn log.** With `reuse_logs` (off by default) `RecoverLogFile` appends to the last log
  without asking where a crash cut it off (`db/db_impl.cc:458`), and `ReuseManifest` does the same with the
  manifest (`db/version_set.cc:1013`). `LogReopen.AppendsAfterCrash` says what is read back. A cut between
  two physical records loses nothing, and one corruption is reported if part of a record had been written.
  A cut inside one is harmless only in padding-like rests at the end of a block (`LogReopen.Harmless`, which
  can be computed from the lengths alone); any other loses something or is reported, whatever the checksum
  function, and if less is appended than is missing, all of it is lost although its writes succeeded and
  nothing is reported (`LogReopen.TornByHeaderAlone` is an input). This is an equivalence but for one family
  of files (`LogReopen.Told`): what stands at the tear passes the checksum by chance, and the tear is inside
  a header, or in the last physical record of a record that has the length of the first one appended. What
  a reader gets of those does depend on the checksum function (`LogReopen.ChanceMends`). In the step system a torn log is one that was
  cut off harmfully, and no such log is reused.
- **The largest sequence number.** The merge loop starts every user key with 2^56 - 1 as the sequence
  number before (`db/db_impl.cc:921-943`), so with that number as smallest snapshot it drops
  everything: `CompactionWork.DoCompactionWork`. The step system picks a compaction only below it.
- **Full strings.** nanopb encodes a string that fills its array without a NUL but refuses to decode
  it (`pb_encode.c:875-899`, `pb_decode.c:1481-1517`): `PbRoundTrip.FullStringIsSentButRefused`;
  `PbRoundTrip.EncodeAndDecode` says that this is the only way a message that was encoded does not
  come back.
- **The cache between insertions.** Usage within capacity or an empty LRU list is what `Insert`
  leaves and `Lookup`, `Erase` and `Prune` keep. `Release` evicts nothing (`util/cache.cc:225-237`) and can
  put an entry on the list while usage is above capacity: `LruCaches.ReleasedOverCapacity` is an input, and
  `LruCaches.ReleaseFits` the exact condition.

## Model

| member | source | states |
|---|---|---|
| `EngineProof.StepKeepsInv` | FlowerGiftApp/Pods/leveldb-library/db/db_impl.cc:535-566 | Every step keeps the engine's invariant: a log write, an insert, a log switch, a flush, a pick of any safe and connected inputs, the opening of an output file, an install that is not straddled, a trivial move, an abandoned compaction, a deletion of obsolete files, a snapshot taken or released, a crash between steps or inside an append, and a recovery that appends to no harmfully torn log. The invariant says that newer data is never below older data, that reads agree with the whole history, that the logs still needed hold exactly what no table holds, and that the files of the version and of the running compaction are on disk. |
| `EngineProof.RunInv` | FlowerGiftApp/Pods/leveldb-library/db/db_impl.cc:648-768 | The invariant holds in every state of every run of those steps from a new database, with one background worker and no I/O errors. |
| `EngineProof.ReadsSeeHistory` | FlowerGiftApp/Pods/leveldb-library/db/db_impl.cc:1100-1145 | In every state of such a run, at every snapshot in use, the memtables and tables together give the newest write ever logged at or below that snapshot, and a deletion means absent. |
| `EngineProof.FlushJob` | FlowerGiftApp/Pods/leveldb-library/db/db_impl.cc:517-526 | A flush committed while a compaction runs leaves that compaction's inputs safe and its base-level answers right. |
| `EngineProof.NothingResurrects` | FlowerGiftApp/Pods/leveldb-library/db/db_impl.cc:947-956 | A compaction that is not straddled when it commits drops no tombstone that still hides an older value, even though flushes came in between. |
| `EngineProof.InstallFaithful` | FlowerGiftApp/Pods/leveldb-library/db/db_impl.cc:860-876 | Committing the outputs leaves every read at a snapshot in use as it was. |
| `EngineProof.DeleteKeepsInv` | FlowerGiftApp/Pods/leveldb-library/db/db_impl.cc:223-278 | Deleting obsolete files, also while a compaction has half its outputs on disk, never removes a file of the version, an output of the running compaction or a log still needed, and leaves no table that is neither of these nor held by a reader, and no older log. |
| `EngineProof.ReplayedIs` | FlowerGiftApp/Pods/leveldb-library/db/db_impl.cc:323-350 | What the logs from the manifest's number on hold is exactly the memtables' contents and the batch being inserted. |
| `EngineProof.RecoversLast` | FlowerGiftApp/Pods/leveldb-library/db/db_impl.cc:361-365 | Recovery ends with the last sequence number that was logged. |
| `DbGet.Get` | FlowerGiftApp/Pods/leveldb-library/db/db_impl.cc:1124-1134 | A lookup through the memtable, the immutable memtable and the version returns the newest entry at or below the snapshot over all of them, for any contents in which newer data is above older. |
| `DbGet.MemTableGet` | FlowerGiftApp/Pods/leveldb-library/db/memtable.cc:100-132 | The memtable delivers the newest visible entry of the key and tells a value from a deletion; it says not found only if it has none. |
| `DbGet.GetSeesHistory` | FlowerGiftApp/Pods/leveldb-library/db/db_impl.cc:1100-1145 | In every reachable state that lookup sees the history, even if it sees part of a batch that is being inserted. |
| `DbGet.CrashLosesNothing` | FlowerGiftApp/Pods/leveldb-library/db/db_impl.cc:280-369 | From every reachable state, also one in which the log ends in a torn record, recovery rebuilds the latest value of every key ever logged, and every table the manifest names is on disk. |
| `LogReplay.RunLogOrder` | FlowerGiftApp/Pods/leveldb-library/db/db_impl.cc:358-366 | In every reachable state the logs still needed, read in the order of their numbers, hold the writes in the order of their sequence numbers. |
| `LogReplay.Recovery.RecoverLogFile` | FlowerGiftApp/Pods/leveldb-library/db/db_impl.cc:371-489 | Replaying one log puts its entries, in the order written, into consecutive level-0 tables, one whenever the memtable is full and one of the rest, or goes on with the memtable: exactly if that is asked for, the log is the last and its memtable was never full. |
| `LogReplay.Recovery.Recover` | FlowerGiftApp/Pods/leveldb-library/db/db_impl.cc:323-366 | Replaying all logs partitions their entries among tables with increasing numbers, the same tables as log by log; the next file number ends above every log, and the last sequence number is the larger of the manifest's and the logs'. |
| `ReplayCuts.OneMemtableUnlessFull` | FlowerGiftApp/Pods/leveldb-library/db/db_impl.cc:441-463 | A log goes into one memtable exactly if that is not full after any of its batches. |
| `ReplayCuts.TablesWereFull` | FlowerGiftApp/Pods/leveldb-library/db/db_impl.cc:441-452 | Every table written on the way was a full memtable, and the one left is not full. |
| `LogReplay.Reopen` | FlowerGiftApp/Pods/leveldb-library/db/db_impl.cc:280-369 | On the logs of any reachable state the replay is a recovery step of the engine, the memtable it leaves is the one the engine goes on with, the invariant holds again and every key reads as its latest write. |
| `LogBytes.ReopenFromFiles` | FlowerGiftApp/Pods/leveldb-library/db/db_impl.cc:371-489 | The same from the bytes of the log files, wherever a crash has cut them off. |
| `LogBytes.AppendHolds` | FlowerGiftApp/Pods/leveldb-library/db/db_impl.cc:1204-1240 | A batch appended to a log file counts exactly if its record is wholly there, wherever the file is cut off. |
| `LogBytes.EntriesAreStamp` | FlowerGiftApp/Pods/leveldb-library/db/write_batch.cc:115-141 | What a batch puts into the memtable is what the engine's write step logs. |
| `LogBytes.StepWritesRecord` | FlowerGiftApp/Pods/leveldb-library/db/db_impl.cc:1204-1240 | What the write step adds to the log is what the record of its batch holds. |
| `ManifestRun.ManifestRebuilds` | FlowerGiftApp/Pods/leveldb-library/db/version_set.cc:801-870 | A snapshot of the version and the edits that a run commits after it, applied one by one or by one builder to an empty version, give the files of the levels; no file number is added to a level twice. |
| `ManifestRun.EditMakesLevel` | FlowerGiftApp/Pods/leveldb-library/db/version_set.cc:650-690 | The edit of a step makes the next version's level out of the last. |
| `ManifestBytes.RecoverVersion` | FlowerGiftApp/Pods/leveldb-library/db/version_set.cc:886-1011 | From the bytes of that manifest, wherever a crash has cut them off, recovery saves exactly the files of the levels, in key order. |
| `DropRule.CompactionPreservesReads` | FlowerGiftApp/Pods/leveldb-library/db/db_impl.cc:927-966 | Reads at and above the smallest snapshot survive dropping exactly if no dropped tombstone is the newest entry of its key at that snapshot while the newest entry left behind is a value. |
| `DropRule.KeptIsNeeded` | FlowerGiftApp/Pods/leveldb-library/db/db_impl.cc:935-962 | An entry is kept exactly if it is the newest of its key at some snapshot from the smallest in use on, and is no tombstone at or below that one of a key nowhere below: overwritten entries go. |
| `Jobs.ReadsSurviveUnlessStraddled` | FlowerGiftApp/Pods/leveldb-library/db/version_set.cc:1344-1447 | For a selection that is right in every other way, reads survive the compaction exactly if no file of the next level left behind is the first to go on, with a value, at the user key where an input of that level ends, while the newest entry of that key is a tombstone among the inputs that the base rule may drop. |
| `Straddle.ReachableUnlessStraddled` | FlowerGiftApp/Pods/leveldb-library/db/version_set.cc:1403-1447 | The same in every reachable state, memtables included. |
| `Straddle.CommitsKeepReads` | FlowerGiftApp/Pods/leveldb-library/db/db_impl.cc:860-876 | In every reachable state, what a compaction has written may be committed by a step of the model exactly if committing it changes no read at its smallest snapshot or later: the commits left out are exactly those that do harm. |
| `Straddle.StraddledTombstoneResurrects` | FlowerGiftApp/Pods/leveldb-library/db/version_set.cc:1422-1426 | A well-formed version and the selection made in it for which a deleted key reads as its old value after the compaction. |
| `StraddleRun.StraddleIsReachable` | FlowerGiftApp/Pods/leveldb-library/db/version_set.cc:1422-1426 | A run of writes, flushes, a held snapshot and one compaction cut inside a key ends in that version; committing the compaction that is then picked changes a read. |
| `Commit.FlushKeepsWellFormed` | FlowerGiftApp/Pods/leveldb-library/db/db_impl.cc:535-566 | A memtable's table put where the placement rule allows keeps the levels disjoint and newer above older. |
| `Commit.FlushKeepsSafe` | FlowerGiftApp/Pods/leveldb-library/db/version_set.cc:491-516 | A flush while a compaction runs keeps its inputs safe and unstraddled; one placed below the source level meets no input. |
| `Commit.CompactionKeepsWellFormed` | FlowerGiftApp/Pods/leveldb-library/db/db_impl.cc:860-876 | Replacing safe inputs by ordered outputs drawn from them keeps the levels disjoint and newer above older. |
| `CompactionJob.PickAndCompact` | FlowerGiftApp/Pods/leveldb-library/db/db_impl.cc:878-1040 | A compaction picked, merged and run on one version leaves tables one after the other that hold exactly what the drop rule keeps of the inputs, with the base keys of that version; the inputs are those of the file the pointer or the seek names. |
| `CompactionJob.DrainMerger` | FlowerGiftApp/Pods/leveldb-library/db/db_impl.cc:897-998 | From SeekToFirst on, Next by Next, a merging iterator over runs without a common key delivers exactly their entries, in key order. |
| `CompactionJob.MergeInputs` | FlowerGiftApp/Pods/leveldb-library/db/version_set.cc:1237-1268 | The iterator over the inputs delivers exactly their entries, in key order. |
| `CompactionJob.WorkCanBeInstalled` | FlowerGiftApp/Pods/leveldb-library/db/db_impl.cc:860-876 | Those tables, with numbers opened by the running compaction, meet what installing them demands, but for the straddle condition. |
| `CompactionWork.DoCompactionWork` | FlowerGiftApp/Pods/leveldb-library/db/db_impl.cc:890-998 | An entry of the input is written exactly if some reader at or above the smallest snapshot needs it and it is no tombstone at or below that snapshot of a key no deeper table spans; in order, each output ending exactly where it is full or the grandparents passed demand it. With the largest sequence number as smallest snapshot nothing is written. |
| `CompactionWork.KeptSeqIsKept` | FlowerGiftApp/Pods/leveldb-library/db/db_impl.cc:927-966 | What the loop remembers of the last key decides the drop rule's set condition, entry by entry, and the result is sorted. |
| `CompactionWork.Compaction.IsBaseLevelForKey` | FlowerGiftApp/Pods/leveldb-library/db/version_set.cc:1533-1552 | For keys asked in order the monotone cursors answer as a full scan of all deeper levels would. |
| `CompactionWork.Compaction.ShouldStopBefore` | FlowerGiftApp/Pods/leveldb-library/db/version_set.cc:1554-1576 | An output ends exactly when the grandparent files passed since it began add up to more than ten times the file size limit. |
| `CompactionWork.CutsOrdered` | FlowerGiftApp/Pods/leveldb-library/db/db_impl.cc:968-992 | Cutting a sorted run into outputs leaves each sorted and all of them one after the other. |
| `OutputCuts.CutWhenFull` | FlowerGiftApp/Pods/leveldb-library/db/db_impl.cc:968-992 | Adding an entry keeps every output ending exactly where it should: where it is full, or where a stop lies between it and the next. |
| `VersionSets.VersionSet.PickCompaction` | FlowerGiftApp/Pods/leveldb-library/db/version_set.cc:1270-1322 | An automatic compaction starts from the file sought too often, or else the first file of the level past the compaction pointer, or its first file; its inputs are those of that file, safe to move down, and cover their whole user-key hull, and the grandparents are the files two levels down in their range, disjoint. |
| `VersionSets.VersionSet.SetupOtherInputs` | FlowerGiftApp/Pods/leveldb-library/db/version_set.cc:1403-1462 | What stays behind in the source level is newer than what is selected, nothing left behind below reaches into the inputs, and the compaction pointer is the largest key. The next level's inputs are exactly the files that meet the range of the pick with its boundary files; the source level's are these, or, exactly if they are more, small enough and cost no further file below, all that meet the range of both. |
| `VersionSets.AddBoundaryInputs` | FlowerGiftApp/Pods/leveldb-library/db/version_set.cc:1378-1401 | Terminates, keeps what was picked, adds nothing but, each time, the least boundary file of the largest key so far, none twice, and ends with no boundary file left. |
| `VersionSets.FindSmallestBoundaryFile` | FlowerGiftApp/Pods/leveldb-library/db/version_set.cc:1344-1364 | The boundary file with the smallest key, and none only if there is none. |
| `VersionSets.FindLargestKey` | FlowerGiftApp/Pods/leveldb-library/db/version_set.cc:1326-1340 | The largest key of the files, and none exactly for no files. |
| `VersionSets.VersionSet.PickLevelForMemTableOutput` | FlowerGiftApp/Pods/leveldb-library/db/version_set.cc:491-516 | The level is the deepest the rule allows, up to 2, and every level down to it is free of the range. |
| `Selection.LeftBehindIsNewer` | FlowerGiftApp/Pods/leveldb-library/db/version_set.cc:1344-1401 | In a run of neighbours closed under boundary files, what stays behind is newer for every user key. |
| `VersionQueries.FindFile` | FlowerGiftApp/Pods/leveldb-library/db/version_set.cc:88-106 | The first file whose largest key is at or after the key. |
| `VersionQueries.SomeFileOverlapsRange` | FlowerGiftApp/Pods/leveldb-library/db/version_set.cc:122-157 | True exactly if some file meets the range, with open ends and with files that overlap or do not. |
| `VersionQueries.GetOverlappingInputs` | FlowerGiftApp/Pods/leveldb-library/db/version_set.cc:519-559 | Terminates in spite of its restarts; at level 0 the files of the least range that contains the given one and that no file crosses, below exactly the files that meet the range. |
| `VersionGet.Get` | FlowerGiftApp/Pods/leveldb-library/db/version_set.cc:326-421 | Level by level, newest file first at level 0 and one file by binary search below, it returns the newest entry at or below the snapshot over all tables, also if a user key is split across files. |
| `VersionGet.FilesToSearch` | FlowerGiftApp/Pods/leveldb-library/db/version_set.cc:282-324 | The files searched in a level are all that can decide and all span the key: at level 0 exactly those that do, newest first, below at most one, and a candidate elsewhere is older. |
| `DbIter.DBIter.Next` | FlowerGiftApp/Pods/leveldb-library/db/db_iter.cc:141-166 | From any direction, the next live user key with its newest visible value, or the end. |
| `DbIter.DBIter.Prev` | FlowerGiftApp/Pods/leveldb-library/db/db_iter.cc:200-225 | From any direction, the previous live user key with its newest visible value, or the end. |
| `DbIter.DBIter.FindNextUserEntry` | FlowerGiftApp/Pods/leveldb-library/db/db_iter.cc:168-198 | Stops at the first live entry from here on that is not to be skipped. |
| `DbIter.DBIter.FindPrevUserEntry` | FlowerGiftApp/Pods/leveldb-library/db/db_iter.cc:227-267 | Stops at the last live entry before the given place, with its value saved. |
| `DbIter.DBIter.Seek` | FlowerGiftApp/Pods/leveldb-library/db/db_iter.cc:269-281 | The first live user key at or after the target. |
| `DbIter.DBIter.SeekToFirst` | FlowerGiftApp/Pods/leveldb-library/db/db_iter.cc:283-292 | The first live user key. |
| `DbIter.DBIter.SeekToLast` | FlowerGiftApp/Pods/leveldb-library/db/db_iter.cc:294-299 | The last live user key. |
| `DbIter.LiveIsRead` | FlowerGiftApp/Pods/leveldb-library/db/db_iter.cc:168-198 | The live entries are exactly the keys a read at the iterator's sequence number finds, with the values it finds. |
| `DbIter.LiveKeysAscend` | FlowerGiftApp/Pods/leveldb-library/db/db_iter.cc:141-166 | Live entries have ascending user keys, so a scan visits each key once. |
| `DbIter.NextUndoesPrev` | FlowerGiftApp/Pods/leveldb-library/db/db_iter.cc:141-225 | Next after Prev is back at the same entry. |
| `Merger.MergingIterator.Next` | FlowerGiftApp/Pods/leveldb-library/table/merger.cc:55-79 | The least entry of all children after the current key, also after a change of direction. |
| `Merger.MergingIterator.Prev` | FlowerGiftApp/Pods/leveldb-library/table/merger.cc:81-108 | The greatest entry of all children before the current key, also after a change of direction. |
| `Merger.MergingIterator.Seek` | FlowerGiftApp/Pods/leveldb-library/table/merger.cc:47-53 | The least entry of all children at or after the target. |
| `Merger.SmallestIsLeast` | FlowerGiftApp/Pods/leveldb-library/table/merger.cc:148-161 | The smallest of the children's entries is the least of all entries past the bound. |
| `Merger.LargestIsGreatest` | FlowerGiftApp/Pods/leveldb-library/table/merger.cc:163-176 | The largest of the children's entries is the greatest of all entries short of the bound. |
| `TwoLevel.TwoLevelIterator.Seek` | FlowerGiftApp/Pods/leveldb-library/table/two_level_iterator.cc:82-87 | The least entry of all blocks at or after the target, whatever blocks are empty. |
| `TwoLevel.TwoLevelIterator.Next` | FlowerGiftApp/Pods/leveldb-library/table/two_level_iterator.cc:103-107 | The next entry of all blocks. |
| `TwoLevel.TwoLevelIterator.Prev` | FlowerGiftApp/Pods/leveldb-library/table/two_level_iterator.cc:109-113 | The previous entry of all blocks. |
| `TwoLevel.TwoLevelIterator.SkipEmptyDataBlocksForward` | FlowerGiftApp/Pods/leveldb-library/table/two_level_iterator.cc:115-126 | Skipping empty blocks terminates at the least entry past the bound. |
| `TwoLevel.TwoLevelIterator.SkipEmptyDataBlocksBackward` | FlowerGiftApp/Pods/leveldb-library/table/two_level_iterator.cc:128-139 | Skipping empty blocks backwards terminates at the greatest entry short of the bound. |
| `IteratorStack.StepsAgree` | FlowerGiftApp/Pods/leveldb-library/db/db_impl.cc:1062-1087 | What a merging or a two-level iterator stands at after Next or Prev is what an iterator over the sorted run of all entries stands at. |
| `IteratorStack.SeeksAgree` | FlowerGiftApp/Pods/leveldb-library/db/db_impl.cc:1062-1087 | The same for the three ways to seek. |
| `IteratorStack.NextInStep` | FlowerGiftApp/Pods/leveldb-library/table/merger.cc:55-79 | A merging iterator and an iterator over all its entries stay in step under Next. |
| `IteratorStack.PrevBlockwise` | FlowerGiftApp/Pods/leveldb-library/table/two_level_iterator.cc:109-113 | A two-level iterator and an iterator over all its entries stay in step under Prev. |
| `LogFile.ReadAfterCrash` | FlowerGiftApp/Pods/leveldb-library/db/log_reader.cc:56-271 | Whatever is written and wherever the file is cut off, reading returns exactly the records wholly inside the cut, in order, and reports no corruption. |
| `LogFile.ReadLog` | FlowerGiftApp/Pods/leveldb-library/db/log_reader.cc:56-271 | Of any file whatever, delivers the records and reports the corruptions that the reading function Drain says. |
| `LogFile.Reader.ReadPhysicalRecord` | FlowerGiftApp/Pods/leveldb-library/db/log_reader.cc:189-271 | On any bytes: the physical record at hand, with trailers skipped; a damaged one gives up the rest of its block and is reported, zeros silently; one that the end of the file cuts off counts as the end. |
| `LogFile.Reader.ReadRecord` | FlowerGiftApp/Pods/leveldb-library/db/log_reader.cc:56-174 | On any bytes: the next record assembled from its fragments, and the corruptions reported on the way. |
| `LogReading.DrainPrefix` | FlowerGiftApp/Pods/leveldb-library/db/log_reader.cc:56-174 | Of a log cut off anywhere exactly the whole records are delivered, and nothing is reported. |
| `LogReading.DrainLog` | FlowerGiftApp/Pods/leveldb-library/db/log_reader.cc:84-174 | The records of a log are delivered wherever it begins, and a fragmented record not finished before it is reported unless it is empty. |
| `LogFile.Writer.AddRecord` | FlowerGiftApp/Pods/leveldb-library/db/log_writer.cc:34-80 | Appends the record as fragments that no block boundary cuts, padding a block too full for a header. |
| `LogFile.Writer.EmitPhysicalRecord` | FlowerGiftApp/Pods/leveldb-library/db/log_writer.cc:82-108 | Appends header and payload and moves on in the block. |
| `LogFormat.CompleteIsLongest` | FlowerGiftApp/Pods/leveldb-library/db/log_reader.cc:56-174 | The complete records of a prefix are the longest run of records whose log fits in it. |
| `LogFormat.LogAppend` | FlowerGiftApp/Pods/leveldb-library/db/log_writer.cc:34-80 | Writing two lists of records is writing the first and going on with the second where it ends. |
| `LogFormat.CutAtBlockEnd` | FlowerGiftApp/Pods/leveldb-library/db/log_writer.cc:34-80 | A record is cut only at the end of a block, and a block is left early only if no header fits. |
| `LogFormat.EmitSize` | FlowerGiftApp/Pods/leveldb-library/db/log_writer.cc:34-80 | A record takes its bytes, the padding and one header for the first and for every further block it reaches. |
| `LogReopen.AppendsAfterCrash` | FlowerGiftApp/Pods/leveldb-library/db/db_impl.cc:455-474 | A log cut off anywhere, reopened and appended to. Between physical records: all whole records and all that was appended are read back, with one report if part of a record had been written. Inside one: all is read back with nothing reported exactly if there is no room for a header behind the cut and what is there of one looks like padding, whenever that can be told, which leaves open only a tear that passes the checksum by chance, inside a header or in the last physical record of a record as long as the first one appended. Torn in a payload and followed by less than is missing: what was appended is lost and nothing is reported. |
| `LogReopen.CutLogDelivers` | FlowerGiftApp/Pods/leveldb-library/db/db_impl.cc:455-474 | The same of the bytes: the whole records, and then what each kind of cut delivers. |
| `LogReopen.NextBlock` | FlowerGiftApp/Pods/leveldb-library/db/log_writer.cc:34-80 | Where a block ends, what was appended goes on between two records or inside one. |
| `LogReopen.ChanceMends` | FlowerGiftApp/Pods/leveldb-library/db/db_impl.cc:455-474 | An input, with a checksum function that tells nothing apart, on which all is read back although the cut is not harmless: what is left open does depend on the checksum function. |
| `LogReopen.EmptyFragmentAlone` | FlowerGiftApp/Pods/leveldb-library/db/log_reader.cc:89-97 | An input on which a cut is harmless although a header was written: the empty first fragment of a record. |
| `LogReopen.TornByHeaderAlone` | FlowerGiftApp/Pods/leveldb-library/db/db_impl.cc:455-474 | An input on which what was appended is lost: only the header of a record of 100 bytes was written, and the next record has one byte. |
| `BlockRoundTrip.BuildAndRead` | FlowerGiftApp/Pods/leveldb-library/table/block_builder.cc:47-106 | For every restart interval, a block gives back exactly the entries it was built from. |
| `BlockBuilders.BlockBuilder.Add` | FlowerGiftApp/Pods/leveldb-library/table/block_builder.cc:72-106 | Appends one entry as the layout has it next, sharing all it can with the last key unless a restart is due; the size estimate grows by at most the entry and 19 bytes. |
| `BlockBuilders.RestartsApart` | FlowerGiftApp/Pods/leveldb-library/table/block_builder.cc:72-106 | The restart points are exactly the entries at the multiples of the interval. |
| `BlockBuilders.SharesAll` | FlowerGiftApp/Pods/leveldb-library/table/block_builder.cc:72-106 | Every other entry shares the longest common prefix with the one before. |
| `BlockBuilders.BlockBuilder.Finish` | FlowerGiftApp/Pods/leveldb-library/table/block_builder.cc:62-70 | The finished block holds the layout and is as long as the estimate said. |
| `BlockFormat.DecodeAt` | FlowerGiftApp/Pods/leveldb-library/table/block.cc:45-75 | Decoding at an entry's offset finds its lengths and its bytes. |
| `BlockIters.BlockIter.Seek` | FlowerGiftApp/Pods/leveldb-library/table/block.cc:163-201 | On a built block with ascending keys, lands on the first key at or after the target. |
| `BlockIters.BlockIter.Next` | FlowerGiftApp/Pods/leveldb-library/table/block.cc:137-140 | On a built block, moves to the next entry. |
| `BlockIters.BlockIter.Prev` | FlowerGiftApp/Pods/leveldb-library/table/block.cc:142-161 | On a built block, moves to the entry before, or past the end from the first. |
| `BlockIters.BlockIter.SeekToLast` | FlowerGiftApp/Pods/leveldb-library/table/block.cc:208-213 | On a built block, moves to the last entry. |
| `BlockIters.BlockIter.SearchRestarts` | FlowerGiftApp/Pods/leveldb-library/table/block.cc:163-190 | The binary search ends at the last restart point whose key is before the target, or the first if there is none. |
| `BlockIters.BlockIter.ParseNextKey` | FlowerGiftApp/Pods/leveldb-library/table/block.cc:224-252 | Reads the next entry of a built block, key and value, with the restart point it belongs to. |
| `TableLookup.BuildAndGet` | FlowerGiftApp/Pods/leveldb-library/table/table.cc:216-244 | In a table built from any ascending entries, with any block size, restart interval and filter, a lookup finds an entry if there is one of its user key at or after it, and what it finds is the first at or after it; building succeeds whenever the blocks, the index and the filters stay below 4 GB. |
| `TableReader.Table.InternalGet` | FlowerGiftApp/Pods/leveldb-library/table/table.cc:216-244 | Delivers the first entry of the table at or after the key and misses none of its user key; it finds something exactly if the one block the index leads to has an entry at or after the key and its filter lets the key through. |
| `TableReader.NothingMissed` | FlowerGiftApp/Pods/leveldb-library/table/table.cc:216-244 | If the block the index leads to has nothing of the user key at or after it, the table has none. |
| `TableReader.LaterBlocksAreNotNeeded` | FlowerGiftApp/Pods/leveldb-library/table/table.cc:216-244 | If a later block holds an older entry of the key sought, the block itself holds an entry at or after it. |
| `TableBuilders.TableBuilder.Add` | FlowerGiftApp/Pods/leveldb-library/table/table_builder.cc:94-123 | Adds one entry after the last, and cannot fail while what was added is small; the block ends exactly once it has the size asked for. |
| `TableBuilders.TableBuilder.Flush` | FlowerGiftApp/Pods/leveldb-library/table/table_builder.cc:125-139 | Writes the open block, loses no entry, and cannot fail while what was added is small. |
| `TableBuilders.TableBuilder.Finish` | FlowerGiftApp/Pods/leveldb-library/table/table_builder.cc:198-253 | Writes the last block, the filter, the metaindex, the index and the footer; the footer leads to the metaindex and the index, the metaindex to the filter, and the file holds exactly what was added. |
| `TableLookup.Open` | FlowerGiftApp/Pods/leveldb-library/table/table.cc:38-127 | From the bytes of a file the builder finished, opening finds the index and, with a filter policy, the filter. |
| `TableBuilders.TableBuilder.WriteRawBlock` | FlowerGiftApp/Pods/leveldb-library/table/table_builder.cc:177-194 | Appends the block and its trailer so that it can be read back at its handle. |
| `TableBuilders.HistoryLinks` | FlowerGiftApp/Pods/leveldb-library/table/table_builder.cc:94-123 | Every shortened index key is at or above its block and below everything after, and hides no older entry of the last user key. |
| `TableBuilders.HistorySize` | FlowerGiftApp/Pods/leveldb-library/table/table_builder.cc:94-139 | File, open block and index together stay within the cost of the entries added. |
| `TableBuilders.FinishedIsSound` | FlowerGiftApp/Pods/leveldb-library/table/table_builder.cc:198-253 | A finished index names every block and divides it from the next. |
| `TableFormat.StoredReads` | FlowerGiftApp/Pods/leveldb-library/table/format.cc:64-141 | A block written with its trailer reads back, whether or not its checksum is verified. |
| `TableFormat.HandleRoundTrip` | FlowerGiftApp/Pods/leveldb-library/table/format.cc:15-29 | Decoding a block handle undoes encoding it. |
| `TableFormat.FooterRoundTrip` | FlowerGiftApp/Pods/leveldb-library/table/format.cc:31-69 | Decoding a footer undoes encoding it. |
| `Comparators.FindShortestSeparator` | FlowerGiftApp/Pods/leveldb-library/util/comparator.cc:29-50 | The first byte that differs is raised by one and the rest cut off exactly if that leaves the start below the limit there; the result is no longer than the start and strictly between. Otherwise the start is unchanged. |
| `Comparators.FindShortSuccessor` | FlowerGiftApp/Pods/leveldb-library/util/comparator.cc:52-64 | The first byte that is not 0xff is raised by one and the rest cut off; unchanged only for keys of 0xff bytes. |
| `Comparators.InternalSeparator` | FlowerGiftApp/Pods/leveldb-library/db/dbformat.cc:69-86 | At or after the start, before the limit, and past the start's user key unless it is the start itself: shortened, with the tag that comes first, exactly if the user key gets shorter. |
| `Comparators.InternalSuccessor` | FlowerGiftApp/Pods/leveldb-library/db/dbformat.cc:88-101 | At or after the key, and at most 8 bytes longer: shortened exactly if the user key gets shorter. |
| `Comparators.LessIsStrictOrder` | FlowerGiftApp/Pods/leveldb-library/util/comparator.cc:25-27 | The bytewise order is strict and total. |
| `InternalKeys.RankOrder` | FlowerGiftApp/Pods/leveldb-library/util/comparator.cc:25-27 | Byte strings compare as their ranks do. |
| `Bloom.CreateFilter` | FlowerGiftApp/Pods/leveldb-library/util/bloom.cc:28-54 | Appends a filter of the specified size with the number of probes at its end, in which a bit is set exactly if it is a probe of one of the keys. |
| `Bloom.KeyMayMatch` | FlowerGiftApp/Pods/leveldb-library/util/bloom.cc:56-80 | True exactly if all probed bits are set, or the encoding is a reserved one. |
| `Bloom.FilterLetsThrough` | FlowerGiftApp/Pods/leveldb-library/util/bloom.cc:28-80 | A filter lets a key through exactly if each of its probes is also one of some key the filter is for: all of these keys, and none for a filter of no keys. |
| `FilterBlock.FilterBlockBuilder.Finish` | FlowerGiftApp/Pods/leveldb-library/table/filter_block.cc:35-49 | Every 2 KB range up to the last block begun has the filter of exactly the user keys added for the blocks that begin in it, an empty one if there are none. |
| `FilterBlock.FilterBlockReader.KeyMayMatch` | FlowerGiftApp/Pods/leveldb-library/table/filter_block.cc:90-104 | On a finished filter block, the word of the filter of the block's range, and yes past the last range. |
| `FilterBlock.AddedIsLetThrough` | FlowerGiftApp/Pods/leveldb-library/table/filter_block.cc:90-104 | A key that was added for the block is never vetoed. |
| `FilterBlock.EmptyRangeRefuses` | FlowerGiftApp/Pods/leveldb-library/table/filter_block.cc:51-57 | In a range no key was added for, every key is vetoed. |
| `SkipLists.StoreKeeps` | FlowerGiftApp/Pods/leveldb-library/db/skiplist.h:337-368 | After every single pointer store of an insertion each level is sorted and a sublist of the level below, and no key is lost. |
| `SkipLists.ReaderFindsLeast` | FlowerGiftApp/Pods/leveldb-library/db/skiplist.h:262-281 | A reader that takes no lock, interleaved with any stores, finds the least key at or after its target of the list at its last load, and none that was there when it began is passed over. |
| `SkipLists.SkipList.Insert` | FlowerGiftApp/Pods/leveldb-library/db/skiplist.h:337-368 | Adds exactly the key, to exactly the levels below its height. |
| `SkipLists.SkipList.FindGreaterOrEqual` | FlowerGiftApp/Pods/leveldb-library/db/skiplist.h:262-281 | The least key at or after the target and, on every level in use, the node before it. |
| `SkipLists.SkipList.FindLessThan` | FlowerGiftApp/Pods/leveldb-library/db/skiplist.h:285-302 | The greatest key before the target, or the head. |
| `SkipLists.SkipList.FindLast` | FlowerGiftApp/Pods/leveldb-library/db/skiplist.h:305-322 | The last node, or the head of an empty list. |
| `SkipLists.SkipList.Contains` | FlowerGiftApp/Pods/leveldb-library/db/skiplist.h:371-378 | True exactly if the key is in the list. |
| `HandleTables.HandleTable.Lookup` | FlowerGiftApp/Pods/leveldb-library/util/cache.cc:74-76 | What the map says. |
| `HandleTables.HandleTable.Insert` | FlowerGiftApp/Pods/leveldb-library/util/cache.cc:78-92 | Updates the map and returns what it replaces, also when the table grows, which it does exactly when it has more entries than buckets. |
| `HandleTables.HandleTable.Remove` | FlowerGiftApp/Pods/leveldb-library/util/cache.cc:94-103 | Removes from the map and returns what was there. |
| `HandleTables.HandleTable.Resize` | FlowerGiftApp/Pods/leveldb-library/util/cache.cc:122-146 | Moves every entry to the new buckets, the least power of two from 4 that is enough; the map does not change. |
| `LruCaches.ReachableInv` | FlowerGiftApp/Pods/leveldb-library/util/cache.cc:217-333 | In every reachable state the table finds exactly the cached entries, references are clients plus the cache's, the two lists split the cached entries by use, usage is the sum of their charges, and every handle lives or was deleted once. |
| `LruCaches.HeldHandlesStay` | FlowerGiftApp/Pods/leveldb-library/util/cache.cc:225-237 | A handle a client holds survives every operation but its own release. |
| `LruCaches.LRUCache.Insert` | FlowerGiftApp/Pods/leveldb-library/util/cache.cc:266-303 | Evicts, least recently released first, exactly as many unused entries as it takes for the charges to fit, or all; nothing else is lost but an entry of the same name, and the new entry is held by the caller. |
| `LruCaches.LRUCache.Release` | FlowerGiftApp/Pods/leveldb-library/util/cache.cc:261-264 | Gives a handle back; the deleter runs if nobody else holds it. Nothing is evicted: a cache whose usage was within capacity or whose LRU list was empty is so still exactly if the usage is within capacity, or the entry is not cached, or another client holds it. |
| `LruCaches.ReleaseFits` | FlowerGiftApp/Pods/leveldb-library/util/cache.cc:225-237 | That condition, of every state. |
| `LruCaches.ReleasedOverCapacity` | FlowerGiftApp/Pods/leveldb-library/util/cache.cc:225-237 | An input on which it fails: two entries of charge 1 in a cache of capacity 1, the first given back. |
| `LruCaches.EraseKeepsFits` | FlowerGiftApp/Pods/leveldb-library/util/cache.cc:318-321 | Erasing keeps usage within capacity or the LRU list empty. |
| `LruCaches.LRUCache.Lookup` | FlowerGiftApp/Pods/leveldb-library/util/cache.cc:252-259 | Finds what the table has and takes a reference to it; nothing else changes hands. |
| `LruCaches.LRUCache.Erase` | FlowerGiftApp/Pods/leveldb-library/util/cache.cc:318-321 | The name leaves the table; the deleter runs at once exactly if no client holds the entry. |
| `LruCaches.LruByRelease` | FlowerGiftApp/Pods/leveldb-library/util/cache.cc:225-250 | After every legal history the LRU list is in the order in which its entries were last released. |
| `LruCaches.LRUCache.Prune` | FlowerGiftApp/Pods/leveldb-library/util/cache.cc:323-333 | Evicts exactly the entries nobody uses, oldest first. |
| `GroupCommit.BuildBatchGroup` | FlowerGiftApp/Pods/leveldb-library/db/db_impl.cc:1260-1306 | The batches of the longest prefix of the queue in which nobody but the first wants a sync unless the first does and every further batch stays within the size bound, one after the other. |
| `GroupCommit.JoiningIsLongest` | FlowerGiftApp/Pods/leveldb-library/db/db_impl.cc:1260-1306 | The writers that join are a prefix that may be one group, and no longer one may. |
| `GroupCommit.RunInv` | FlowerGiftApp/Pods/leveldb-library/db/db_impl.cc:1185-1258 | In every reachable state each finished group is logged and inserted once, in queue order, with consecutive sequence numbers. |
| `GroupCommit.SnapshotsSeeWholeGroups` | FlowerGiftApp/Pods/leveldb-library/db/db_impl.cc:1207-1250 | A reader whose snapshot is the last sequence number sees, then and later, whole groups and nothing of any other. |
| `GroupCommit.SuccessIsWritten` | FlowerGiftApp/Pods/leveldb-library/db/db_impl.cc:1207-1250 | A writer told of success is in one group whose record is in the log, synced if it asked, and all its operations are in the memtable under its own numbers. |
| `GroupCommit.EachWriterOnce` | FlowerGiftApp/Pods/leveldb-library/db/db_impl.cc:1240-1257 | No writer is served twice, and the memtable gets ascending sequence numbers. |
| `GroupCommit.FrontCanLead` | FlowerGiftApp/Pods/leveldb-library/db/db_impl.cc:1194-1205 | Whenever the queue is not empty and nobody leads, the front writer is awake and can. |
| `WriteBatches.WriteBatch.Iterate` | FlowerGiftApp/Pods/leveldb-library/db/write_batch.cc:42-80 | Reading a batch gives back the operations put in it. |
| `WriteBatches.WriteBatch.Append` | FlowerGiftApp/Pods/leveldb-library/db/write_batch.cc:144-149 | One batch after the other holds the operations of both and keeps its sequence number. |
| `VersionReplay.RecoverIsCurrent` | FlowerGiftApp/Pods/leveldb-library/db/version_set.cc:924-996 | Replaying a whole manifest through one builder gives the very version that building one version per edit gives. |
| `VersionReplay.OneBuilderIsStepwise` | FlowerGiftApp/Pods/leveldb-library/db/version_set.cc:650-739 | With every file added once, a level is the same applied at once or edit by edit. |
| `VersionReplay.SaveLevel` | FlowerGiftApp/Pods/leveldb-library/db/version_set.cc:695-754 | Merges base and added files in smallest-key order without the deleted ones. |
| `VersionReplay.OrderedOnce` | FlowerGiftApp/Pods/leveldb-library/db/version_set.cc:596-606 | The order leaves one way to list a set of files. |
| `VersionEdits.DecodeFrom` | FlowerGiftApp/Pods/leveldb-library/db/version_edit.cc:107-205 | Decoding the encoding of an edit into a fresh one gives back every field. |
| `VersionEdits.FieldsBack` | FlowerGiftApp/Pods/leveldb-library/db/version_edit.cc:41-85 | The fields written determine the edit. |
| `VersionEdits.FieldRoundTrip` | FlowerGiftApp/Pods/leveldb-library/db/version_edit.cc:41-205 | Each field is recognized by its tag and read back. |
| `Coding.UnrolledVarint` | FlowerGiftApp/Pods/leveldb-library/util/coding.cc:47-73 | The unrolled 32-bit encoder writes the varint. |
| `Coding.GetVarint32Ptr` | FlowerGiftApp/Pods/leveldb-library/util/coding.cc:112-140 | Reads at most five bytes and keeps 32 bits. |
| `Coding.EncodeVarint64` | FlowerGiftApp/Pods/leveldb-library/util/coding.cc:81-90 | The loop writes the varint. |
| `Coding.VarintLength` | FlowerGiftApp/Pods/leveldb-library/util/coding.cc:103-110 | The length of the varint. |
| `Coding.Varint32RoundTrip` | FlowerGiftApp/Pods/leveldb-library/util/coding.cc:112-140 | Reading undoes writing, whatever follows. |
| `Coding.Varint64RoundTrip` | FlowerGiftApp/Pods/leveldb-library/util/coding.cc:142-169 | Reading undoes writing for 64 bits. |
| `Coding.SliceRoundTrip` | FlowerGiftApp/Pods/leveldb-library/util/coding.cc:98-101 | Reading a length-prefixed slice gives it back and leaves the rest. |
| `Coding.UnmaskMask` | FlowerGiftApp/Pods/leveldb-library/util/crc32c.h:29-38 | The stored checksum determines the checksum. |
| `PbRoundTrip.EncodeAndDecode` | FlowerGiftApp/Pods/nanopb/pb_encode.c:528-550 | For every nested field table and message: encoding succeeds exactly if counts and sizes are within bounds and the buffer has room, and the message comes back whole exactly if in addition every string sent leaves room for its NUL. |
| `PbRoundTrip.FullStringIsSentButRefused` | FlowerGiftApp/Pods/nanopb/pb_decode.c:1481-1517 | A string that fills its array is encoded but refused by the decoder. |
| `PbEncode.Encode` | FlowerGiftApp/Pods/nanopb/pb_encode.c:528-550 | Succeeds exactly if every count and size is in bounds and the stream has room, and then has written the wire format of the message. |
| `PbEncode.EncodeSubmessage` | FlowerGiftApp/Pods/nanopb/pb_encode.c:717-765 | The counting pass and the writing pass give the same number of bytes, so the size never changes in between. |
| `PbEncode.EncodeArray` | FlowerGiftApp/Pods/nanopb/pb_encode.c:147-236 | Packed or item by item, and refused exactly if there are more items than the array has. |
| `PbEncode.EncodeField` | FlowerGiftApp/Pods/nanopb/pb_encode.c:341-426 | Required, optional, implicit, repeated and union fields are sent when they should be. |
| `PbEncode.GetEncodedSize` | FlowerGiftApp/Pods/nanopb/pb_encode.c:567-576 | The number of bytes the encoding has. |
| `PbEncode.OStream.EncodeSVarint` | FlowerGiftApp/Pods/nanopb/pb_encode.c:630-639 | 64-bit arithmetic gives the zigzag of the value. |
| `PbEncode.OStream.EncodeVarint` | FlowerGiftApp/Pods/nanopb/pb_encode.c:608-628 | Marking every byte and clearing the last mark writes the varint. |
| `PbEncode.PutTwice` | FlowerGiftApp/Pods/nanopb/pb_encode.c:103-125 | Writing in two steps is writing at once and fails if either does. |
| `PbMessages.DefaultIsCanonical` | FlowerGiftApp/Pods/nanopb/pb_encode.c:240-337 | A value left out because it is the default is the default. |
| `PbStream.IStream.DecodeVarint32` | FlowerGiftApp/Pods/nanopb/pb_decode.c:187-247 | Up to five bytes it accepts exactly the numbers of 32 bits; from six to ten bytes, the low 32 bits of exactly those whose further bytes are zero or go on with the sign bit. |
| `PbStream.IStream.DecodeVarint` | FlowerGiftApp/Pods/nanopb/pb_decode.c:255-275 | At most ten bytes, the low 64 bits of what they spell, and an error otherwise. |
| `PbStream.IStream.MakeSubstream` | FlowerGiftApp/Pods/nanopb/pb_decode.c:372-385 | Splits off exactly the counted bytes. |
| `PbStream.IStream.SkipField` | FlowerGiftApp/Pods/nanopb/pb_decode.c:321-331 | Skips exactly the value that was sent, whatever its type, and refuses unknown wire types. |
| `PbDecode.DecodeNoinit` | FlowerGiftApp/Pods/nanopb/pb_decode.c:928-1076 | For every input the result is what the specification decodes it to, within the message's bounds; an empty input succeeds exactly if nothing is required, and an encoding is decoded to the message sent, or refused for an unterminated string. |
| `PbDecode.DecodeField` | FlowerGiftApp/Pods/nanopb/pb_decode.c:406-482 | Every kind of field takes up the value that is due and no more than its array holds. |
| `PbDecode.DecodePacked` | FlowerGiftApp/Pods/nanopb/pb_decode.c:426-454 | A packed array is read item by item while there are bytes and room. |
| `PbDecode.DecodeScalar` | FlowerGiftApp/Pods/nanopb/pb_decode.c:1328-1565 | Every kind of value comes back as it was sent, or is refused if it is an unterminated string. |
| `PbDecode.DecodeSigned` | FlowerGiftApp/Pods/nanopb/pb_decode.c:1339-1374 | Integers of every width come back through 64-bit two's complement; any varint is taken exactly if it fits the field, cut to 32 bits first for a smaller one. |
| `PbDecode.DecodeText` | FlowerGiftApp/Pods/nanopb/pb_decode.c:1481-1517 | A string comes back exactly if one byte is left for its NUL. |
| `PbDecode.FieldIter.Find` | FlowerGiftApp/Pods/nanopb/pb_common.c:78-95 | Finds the field from wherever the iterator stands, exactly if the table has it. |
| `PbDecode.FieldIter.CountRequired` | FlowerGiftApp/Pods/nanopb/pb_decode.c:1027-1043 | Going to the end of the table counts its required fields. |
| `PbUnknown.UnknownFieldsAreIgnored` | FlowerGiftApp/Pods/nanopb/pb_decode.c:957-988 | Any message, a run of fields in fitting wire types and unknown ones anywhere among them, decodes to what it decodes to without the unknown ones, failures included. |
| `PbUnknown.UnknownIsSkipped` | FlowerGiftApp/Pods/nanopb/pb_decode.c:957-988 | In whatever state decoding is, an unknown field in front of any bytes changes nothing. |
| `PbUnknown.UnknownOnly` | FlowerGiftApp/Pods/nanopb/pb_decode.c:985-988 | For example: field 2 alone, where the table has field 1, gives the default message. |
| `PbUnknown.RequiredAreMet` | FlowerGiftApp/Pods/nanopb/pb_decode.c:1015-1076 | On any input decoding succeeds exactly if the loop comes to the end of the message and the tag of each of the first 64 required fields was met. |
| `PbUnknown.SentIsField` | FlowerGiftApp/Pods/nanopb/pb_decode.c:321-331 | What an encoder sends for a field of any table is one field on the wire. |
| `PbUnknown.FieldLocal` | FlowerGiftApp/Pods/nanopb/pb_decode.c:406-482 | A field in a fitting wire type takes exactly its own bytes, whatever follows. |
| `PbDecode.DecodeUnsigned` | FlowerGiftApp/Pods/nanopb/pb_decode.c:1376-1398 | A varint is taken exactly if it fits the field, and unchanged. |
| `PbDecode.DecodeZigZag` | FlowerGiftApp/Pods/nanopb/pb_decode.c:1400-1422 | A zigzag varint is taken exactly if the number it stands for fits the field. |

## Left out

- EngineProof.StepKeepsInv: a compaction commits only if it is not straddled at that moment, which the code does not check; the first finding says what happens otherwise, and that no other commit is left out. Committing a version, its manifest record included, is one step.
- EngineProof.RunInv: one background worker, no I/O errors, and automatic compactions; a manual `CompactRange` over files with gaps may race with a flush.
- LogReplay.Reopen: the last log is reused only if its cut is harmless, which the code does not check; the second finding says what happens otherwise. An empty batch shows no sequence number.
- LogReopen.AppendsAfterCrash: says nothing, but for the case of short appends, of a tear that passes the checksum by chance inside a header or, with room behind it, in the last physical record of a record as long as the first one appended.
- LogBytes.ReopenFromFiles: a log that was reused is taken to have been cut off between its whole records, in padding at most; the other harmless cuts are in `LogReopen`. User keys are bytes here, ranks above.
- ManifestBytes.RecoverVersion: the counters and the comparator's name in the edits, the CURRENT file and appending to a manifest that a crash has torn are not modelled; the second finding applies to the last. Internal keys of files are taken from their bytes, sequence numbers modulo 2^56.
- CompactionJob.PickAndCompact: runs on one version without interruption; `EngineProof.FlushJob` and the steps in between are the engine's. Every input file has an iterator of its own; `IteratorStack` shows that a two-level iterator over the files of a level stands where one over their entries does.
- DbIter.DBIter.Next: the database iterator runs over one sorted run; `IteratorStack` shows that merging and two-level iterators step like one. Corrupt internal keys are not modelled.
- TableBuilders.TableBuilder.Finish: compression and the block cache are not modelled, and a builder that outgrows its 32-bit offsets fails instead of wrapping.
- TableLookup.BuildAndGet: says nothing of blocks, an index or filters of 4 GB and more.
- BlockIters.BlockIter.Next: the sum of lengths in a damaged entry is not wrapped to 32 bits.
- LogFile.Reader.ReadPhysicalRecord: an initial offset other than 0, resynchronization and read errors are not modelled.
- FilterBlock.FilterBlockBuilder.Finish: the flattened keys and their starts are a list of keys.
- SkipLists.ReaderFindsLeast: every load and store is one step; the orderings of the C++ memory model below that, the arena and the random choice of heights (a parameter) are not modelled.
- HandleTables.HandleTable.Resize: the bucket is the hash modulo the table length, a power of two, instead of its low bits; chains are sequences.
- LruCaches.LRUCache.Insert: the doubly linked lists are sequences, so that unlinking a handle without knowing its list is removing it from both; sharding is not modelled.
- GroupCommit.RunInv: a failed log write or sync fails its group; that the database then refuses further writes is not modelled, and waiting for memtable space is the engine's step.
- VersionEdits.DecodeFrom: decodes into a fresh edit; `Clear` does not clear the compaction pointers (`db/version_edit.cc:26-39`). Corrupt input only has to end in a failure or an edit.
- VersionReplay.RecoverIsCurrent: the counters of an edit are in the engine's steps.
- PbDecode.DecodeNoinit: fields are set in a message value, not in a C structure at offsets; unions hold their members' values. A tag of zero in an empty message type is not modelled.
- PbStream.IStream.DecodeVarint32: of varints longer than ten bytes it says what the loop makes of them, not what number that is.
- PbMessages.DefaultIsCanonical: descriptor defaults other than zero, fixed-count arrays, callbacks, pointer fields and extensions are not modelled.
- PbEncode.Encode: `size_t` is taken as unbounded.
- CRC32C and the hash functions are parameters: only that they are functions is used, and that the mask can be undone.
- Compaction heuristics (scores, seek charges, read sampling), statistics, logging, repair, file names, environments and threads.
- The application's own Swift code: it has no logic beyond reading a branch.
