# A verified model of the LevelDB store and of nanopb

LevelDB (`ios/Pods/leveldb-library`) keeps a sorted map on disk as a log-structured merge tree.  A write
is appended to a log and inserted in a memtable; full memtables become sorted tables; background
compactions merge tables down seven levels; a manifest of edits records which tables are live.  This
project states what all of that is for and proves it of a model that follows the code branch by branch.

The model comes in layers, each proved against the one it relies on.

* **The store.**  `Runs` holds the main theorem, `Scenario`, `LostTombstone` and `GapFlush` the two lists of
  commands that show its conditions to be needed.  `Db` is `DBImpl` with its memtables, version, log files
  and manifest; `StoreState`, `Disk`, `Durability` and `Recovery` say what a good state is, in memory and
  on disk, and what recovery makes of a disk.  The reference is a plain list of operations (`Reads`).
* **Versions and compaction.**  `Versions`, `VersionGet`, `CompactionInputs`, `CompactionPick`,
  `CompactionWork`, `CompactionMerge`, `CompactionReads`, `Install`, `Edits`, `Builder` and `Manifest` follow
  `version_set.cc` and the merge loop of `db_impl.cc`; `Interleaved` is about memtables flushed while that loop runs.
* **Iterators.**  `Iterators` (a cursor over a sorted sequence), `Merger`, `TwoLevel`, `DbIter`, and `StoreScan`, an
  iterator over a whole store.
* **Formats.**  `Coding`, `Crc32c`, `CrcTables`, `LogFormat`, `LogWriter`, `LogReader`, `LogRoundTrip`, `BlockFormat`,
  `BlockBuilder`, `BlockIter`, `TableFormat`, `TableReader`, `Filters`, `FilterBlock`, `FilteredTable`, `EditCodec`,
  `WriteBatches`; `LogCorruption`, what a changed byte costs; `LogFragments`, logs of any intact fragments; `Layouts`, the
  formats byte by byte; and `LogRecovery` and `ShortLog`, which lead from the bytes of a torn log to the history.
* **Memory.**  `SkipList`, `LruList`, `HandleTable`, `LruCache`.
* **nanopb** (`ios/Pods/nanopb`).  `NanopbFormat` is the wire format over an abstract schema, `NanopbRoundTrip` the round
  trip and merging, `NanopbUnknown` is about fields a schema does not have, `NanopbSafety` about what any bytes can do to the
  struct, `NanopbVarint` about its 32-bit varints; `NanopbEncode` and `NanopbDecode` are the stream code that computes it.
* **Threads.**  `GroupCommit`, the writer queue; a method is what one thread does while it holds the mutex,
  so a run is any sequence of calls.

Above the byte formats a user key is its place in the user comparator's order, a real number: every total
order on the countable set of byte strings embeds there, and `Bytewise` builds the embedding for the
default comparator.  A table is the sequence of its entries, a file a sequence of bytes, a directory a map
from numbers.  `dafny verify dfyconfig.toml` checks everything.

## Findings

* **A compaction can lose a tombstone** (`db/version_set.cc:1384-1410`, `db/db_impl.cc:916-1009`).
  `SetupOtherInputs` closes the inputs of the compacted level under "the next file continues the user key",
  but not the inputs of the level below, and `IsBaseLevelForKey` looks only from two levels down.
  `LostTombstone.COMMANDS` is a list of fourteen commands on an empty store whose last one reads a deleted key
  and gets its old value: a compaction under a snapshot splits the key over two files, the deletion marker
  last in the first; a second compaction takes the first file alone and drops the marker.
  `CompactionReads.ExactlyWhenNoTombstoneIsLost` gives the exact condition for every
  compaction and key, which a caller could test before merging; `ClosedInputsLoseNothing` shows that
  closing the level+1 inputs as well would always meet it.  `Runs.Run` carries the condition per key.
* **A flush during a compaction by hand can put a level out of order** (`db/db_impl.cc:918-928`, `:531`,
  `db/version_set.cc:470-495`, `:680-696`).  The merge loop flushes a full memtable, and
  `PickLevelForMemTableOutput` may place it on the output level between two inputs, where the outputs are not
  yet; an output can then reach over it.  A debug build stops at the check in `Builder::SaveTo`; without it the
  binary search of `FindFile` misses the flushed keys (`GapFlush.InnerIsMissed`).  `GapFlush.COMMANDS` are seventeen
  commands on an empty store that lead there.  `Interleaved.FitsExactlyWhenClear` is the exact condition, on the outputs
  and the files of the level just before the installation; `Interleaved.GaplessIsClear` with `CompactionPick.PickFile`
  and `SetupOtherInputs` shows that compactions chosen by score or seeks always meet it, so only `CompactRange` is
  concerned.  `Runs.Run` says that nothing else stops a run.
* **Lengths of a block entry are added in 32 bits** (`table/block.cc:71`).  Two lengths whose sum wraps around pass the
  comparison with the bytes left: `BlockFormat.WrappedIsAccepted`.  `AcceptedFits` is the exact condition; blocks that
  the builder makes meet it.
* **A changed byte can lose log records without a report** (`db/log_reader.cc:233-240`).  A header with type and length
  zero is taken for space set aside and the rest of its block is skipped in silence; clearing the type byte of an empty
  record makes one: `LogCorruption.LostQuietly`.  `CorruptByte` has the exact condition, and what comes back in every case.
* **Two fragment types mean something else to the reader** (`db/log_reader.h:64-72`).  The codes for the end of the file and
  for a bad fragment are the next two numbers after the types, so an intact fragment of type 5 ends the log in silence
  (`LogFragments.TypeFiveEnds`).  No writer makes one; with the other types everything out of place is reported
  (`AnyFragments`).
* **A group whose sync fails after its append is in the log and not in the memtable** (`db/db_impl.cc:1219-1239`), as the
  source says itself: that is exactly when log and memtable differ (`GroupCommit.LogRebuildsMemtable`).
* **Manifest numbers must never be reused on a level** (`db/version_set.cc:666-667`).  Adding a file clears the
  deletion mark of its number, so replay would resurrect the earlier file: `Manifest.ReuseDiverges`.  The
  store never does it; `Disk.NewFilesRecorded` keeps that as an invariant.
* **Decoding an edit is the identity only on an object without compaction pointers** (`db/version_edit.cc:26-39`).
  `Clear` does not clear them; `EditCodec.RoundTrip` has the exact condition.
* **A failed group still spends its sequence numbers** (`db/db_impl.cc:1245-1247`), and a writer with a null batch
  that rides along behind a leader is answered without a memtable switch of its own (`db/db_impl.cc:1288-1313`).
* **nanopb takes the terminator of an empty field list for a field** (`pb_common.c:87-104`): in a message type
  without fields, an entry with field number 0 is read as a required bool instead of being skipped by its
  wire type; `NanopbFormat.Unknown` follows the code.
* **A 32-bit varint of nanopb may hold more than 32 bits** (`pb_decode.c:224-243`).  The upper bits of the fifth byte are
  compared only when it is the last one, so a byte without bits after it lets them pass unseen: `NanopbVarint.OverflowUnseen`;
  `Varint32Is` has the exact condition.
* **Comments against code.**  The comment on `DBIter`'s reverse direction (`db/db_iter.cc:41-46`) says the inner
  iterator stands just before the current key's entries; the proofs needed the weaker "before them, with
  nothing visible between", which is what the code keeps.

## Model

| member | source | states |
|---|---|---|
| Runs.Run | ios/Pods/leveldb-library/db/db_impl.cc:697-776 | For every list of writes, reads, whole scans, snapshots, memtable switches, flushes, trivial moves, compactions begun by score, by seeks or by hand and finished with anything in between, and crashes (between commands, after the log append, after tables were written but not recorded, and inside recovery): every reply is right, by a plain list of operations, about every user key of which no earlier compaction lost a tombstone; the store only ever holds accepted operations; and the run gets to its end unless a compaction by hand finishes with an output around a table flushed meanwhile |
| Runs.SnapshotReadsAreStable | ios/Pods/leveldb-library/db/db_impl.cc:1176-1179 | Whatever commands follow, the reference read at a sequence number already given out never changes |
| Runs.Execute | ios/Pods/leveldb-library/db/db_impl.cc:697-776 | One command, whichever it is, takes the store from one reference state to the next, does to memtables, version, compaction under way and compaction pointers what Moment.Moves says for it, crashes and all three ways of choosing a compaction included, and describes the compaction it finished |
| Db.DBImpl.Open | ios/Pods/leveldb-library/db/db_impl.cc:1478-1519 | Opening any disk a run may leave behind succeeds and brings back exactly the entries on it: the history including a logged batch never inserted; memtables and snapshots are empty, the compaction pointers are those of the manifest, and obsolete files are gone |
| Db.CrashIsHarmless | ios/Pods/leveldb-library/db/db_impl.cc:1207-1243 | At any moment of a run the disk alone determines a store that reads like the history plus the batch in the log |
| Db.OpenUnfinished | ios/Pods/leveldb-library/db/db_impl.cc:289-378 | Recovery interrupted after writing tables, with or without the new log, leaves a disk that recovers to the same history |
| Db.DBImpl.Get | ios/Pods/leveldb-library/db/db_impl.cc:1110-1155 | Returns the newest entry at or below the snapshot over memtable, immutable memtable and version; the history's value when the store is faithful for that key |
| Db.DBImpl.AddRecord | ios/Pods/leveldb-library/db/db_impl.cc:1216-1221 | Logging a batch changes nothing that is read, and the disk now recovers to the history with it |
| Db.DBImpl.ApplyLogged | ios/Pods/leveldb-library/db/write_batch.cc:132-137 | Inserting the logged batch appends its operations to the history and keeps every key's reads right |
| Db.DBImpl.Write | ios/Pods/leveldb-library/db/db_impl.cc:1195-1247 | A batch is appended to the history as a whole; reads at the snapshots held stay right |
| Db.DBImpl.SwitchMemtable | ios/Pods/leveldb-library/db/db_impl.cc:1356-1376 | A new log and memtable take over without changing the store's entries; both logs stay recoverable |
| Db.DBImpl.CompactMemTable | ios/Pods/leveldb-library/db/db_impl.cc:544-575 | Flushing the immutable memtable keeps the set of entries, places the table as deep as the rule allows and leaves no obsolete file; the manifest with the remaining logs still recovers them |
| Db.DBImpl.RemoveObsoleteFiles | ios/Pods/leveldb-library/db/db_impl.cc:222-287 | Deletes every table that is neither live, held by a reader nor a pending output and every log older than the recorded one, and nothing else: recovery and readers keep what they need |
| Db.DBImpl.StartCompaction | ios/Pods/leveldb-library/db/db_impl.cc:697-757 | The picked files become the inputs that CompactionPick.SetUp determines, with all grandparents of their range, and the pointer of the level becomes their largest key, in memory at once and on disk when the result is recorded. The one file moves down at once if and only if the compaction was not asked for by hand, nothing below meets it and its grandparents are at most ten files' bytes; in every other case the compaction is under way with exactly these inputs and the oldest snapshot of the moment. No entry changes |
| Db.DBImpl.FinishCompaction | ios/Pods/leveldb-library/db/db_impl.cc:990-1048 | However many memtables were switched and flushed, writes and reads made, snapshots taken and released since it began, a compaction installs its outputs if and only if none straddles a table flushed to their level meanwhile, keeps the reads of a key if and only if it loses no tombstone of that key, and is always installed when it was not chosen by hand |
| Db.DBImpl.Scan | ios/Pods/leveldb-library/db/db_impl.cc:1157-1168 | An iterator run from first to last shows every user key that a read at the snapshot finds, with the value it gets, once and in ascending order, and no other |
| Db.DBImpl.MergeInputs | ios/Pods/leveldb-library/db/db_impl.cc:887-1048 | The output files are a sorted level made of the inputs that survive the drop rules, judged by the version the compaction was chosen from; the merge describes the whole store of the moment it ends, tables flushed meanwhile included |
| Db.DBImpl.CompactUnrecorded | ios/Pods/leveldb-library/db/db_impl.cc:795-885 | Compaction output that is not installed yet changes neither reads nor what recovery finds |
| CompactionReads.ExactlyWhenNoTombstoneIsLost | ios/Pods/leveldb-library/db/db_impl.cc:916-1009 | The reads of a user key at every snapshot that may still be asked for when the outputs are installed are the same before and after if and only if no deletion marker of that key from the output level is dropped while the next file of that level begins with an older value of the key |
| CompactionReads.ReadSurvives | ios/Pods/leveldb-library/db/db_impl.cc:960-1009 | One read, decided by a surviving entry, by a marker whose absence says the same, or by an entry outside the inputs |
| CompactionReads.LostTombstoneResurrects | ios/Pods/leveldb-library/db/version_set.cc:1510-1529 | A lost tombstone makes the deleted key readable again at the oldest snapshot still served |
| CompactionReads.ClosedInputsLoseNothing | ios/Pods/leveldb-library/db/version_set.cc:1384-1410 | If the level+1 inputs are closed under "the next file continues the user key", nothing is lost |
| LostTombstone.TombstoneLost | ios/Pods/leveldb-library/db/version_set.cc:1384-1410 | The run of fourteen given commands on an empty store: its last command reads a key that the history has deleted, and gets the value from before |
| Interleaved.FlushFits | ios/Pods/leveldb-library/db/db_impl.cc:918-928 | A flush during the merge loop leaves a compaction fit: its table is newer than the version the compaction was chosen from and, below the input level, meets no input |
| Interleaved.FitsExactlyWhenClear | ios/Pods/leveldb-library/db/version_set.cc:680-696 | Outputs merged from an older version put the current one into search order if and only if none of them begins before and ends after a table flushed to their level meanwhile |
| Interleaved.GaplessIsClear | ios/Pods/leveldb-library/db/version_set.cc:470-495 | Inputs without a gap in user keys leave a flushed table no place between them |
| CompactionInputs.ClosureIsGapless | ios/Pods/leveldb-library/db/version_set.cc:498-538 | Growing a range from inputs without a gap, file by file until nothing sticks out, leaves no gap |
| CompactionPick.PickFile | ios/Pods/leveldb-library/db/version_set.cc:1274-1292 | The starting files of a compaction decided by seeks or scores have no gap; at level 0 they are closed under overlap |
| StoreState.CompactionSound | ios/Pods/leveldb-library/db/db_impl.cc:869-885 | Installed under that condition, the outputs leave a store in search order that holds what was flushed meanwhile, the files left and the survivors |
| Edits.OverlapFound | ios/Pods/leveldb-library/db/version_set.cc:680-696 | The check of a debug build finds neighbours on a level above 0 that are not apart if and only if some such level is not sorted |
| GapFlush.CompactionStopped | ios/Pods/leveldb-library/db/db_impl.cc:918-928 | The run of seventeen given commands on an empty store is stopped at its last one: a memtable flushed during a compaction by hand went between its inputs, and its output lies around it |
| GapFlush.InnerIsMissed | ios/Pods/leveldb-library/db/version_set.cc:87-105 | On the level a build without that check goes on with, the binary search ends at the outer file, which lacks the key, while the inner one holds its newest entry |
| CompactionWork.DoCompactionWork | ios/Pods/leveldb-library/db/db_impl.cc:916-1030 | The outputs, end to end, are exactly the input entries not dropped by the two rules evaluated against a full scan of the deeper levels. Each output holds the survivors of consecutive entries, is below the size limit until its last entry and passes no stop once it is open; each but the last is full or was closed at a stop, which is where the bytes of grandparents passed since the first entry or the last stop exceed the limit |
| CompactionWork.OutputsOnce | ios/Pods/leveldb-library/db/db_impl.cc:916-1030 | That leaves no choice: two cuts of the same entries into outputs that meet it are the same files |
| CompactionWork.DecideDrop | ios/Pods/leveldb-library/db/db_impl.cc:944-988 | current_user_key and last_sequence_for_key decide exactly the drop rule over the whole prefix of the input |
| CompactionWork.Compaction.IsBaseLevelForKey | ios/Pods/leveldb-library/db/version_set.cc:1510-1529 | The monotone level_ptrs_ scan answers the same as scanning every file of every deeper level |
| CompactionWork.Compaction.ShouldStopBefore | ios/Pods/leveldb-library/db/version_set.cc:1531-1553 | Skips exactly the grandparents that end before the key, and stops exactly when those passed since the output began exceed the limit |
| CompactionMerge.CompactionInput | ios/Pods/leveldb-library/db/version_set.cc:1214-1245 | The merged iterator runs through all entries of both input sets in order, level 0 files one by one and deeper levels concatenated |
| CompactionInputs.GetOverlappingInputs | ios/Pods/leveldb-library/db/version_set.cc:498-538 | Terminates; above level 0 exactly the files overlapping the range; at level 0 the least set closed under user-key overlap that contains them |
| CompactionInputs.AddBoundaryInputs | ios/Pods/leveldb-library/db/version_set.cc:1303-1378 | Terminates; only files of the level are added, and no file left out continues the user key of the largest input |
| CompactionPick.SetupOtherInputs | ios/Pods/leveldb-library/db/version_set.cc:1380-1439 | First the picked files closed at the boundary and all files below meeting their range; when there are such files, the grown set, which is all files of the level meeting the whole range, closed at the boundary, takes their place if and only if it is larger, its bytes with those below stay under the limit and its range meets as many files below. No older entry of an input's key stays on its level; files picked without a gap give inputs without a gap |
| CompactionPick.SetUpOnce | ios/Pods/leveldb-library/db/version_set.cc:1380-1439 | The picked files decide the inputs: what SetUp says leaves no choice between two results |
| CompactionPick.PickCompaction | ios/Pods/leveldb-library/db/version_set.cc:1257-1292 | The first file past the compaction pointer, or the first file; at level 0 with everything overlapping it; without a gap |
| CompactionPick.CompactRange | ios/Pods/leveldb-library/db/version_set.cc:1441-1473 | All overlapping files at level 0; deeper, the shortest prefix of them that reaches the size limit |
| CompactionPick.Grandparents | ios/Pods/leveldb-library/db/version_set.cc:1420-1427 | Exactly the files two levels down that meet the range of all inputs |
| VersionGet.Get | ios/Pods/leveldb-library/db/version_set.cc:324-400 | Probing level 0 newest first and one file per deeper level returns the newest entry at or below the snapshot among all entries of the version |
| VersionGet.SortNewestFirst | ios/Pods/leveldb-library/db/version_set.cc:277-279 | Level 0 files sorted by file number, largest first |
| Versions.FindFile | ios/Pods/leveldb-library/db/version_set.cc:87-105 | Binary search, where it ends on any list of files; on a sorted level the first file whose largest key is at or after the key |
| Versions.SearchLevel | ios/Pods/leveldb-library/db/version_set.cc:304-321 | The one file of a deeper level that can hold the key decides the level |
| Install.InstallKeepsOrder | ios/Pods/leveldb-library/db/version_set.cc:1380-1439 | Replacing the inputs by the outputs keeps levels sorted and disjoint and every key's entries newest first down the levels |
| Install.FlushKeepsOrder | ios/Pods/leveldb-library/db/version_set.cc:470-495 | So does a flushed table at level 0, or deeper where nothing above overlaps it |
| Edits.PickLevelForMemTableOutput | ios/Pods/leveldb-library/db/version_set.cc:470-495 | As deep as level 2, exactly as far as nothing overlaps and the grandparent bytes allow |
| Edits.SomeFileOverlapsRange | ios/Pods/leveldb-library/db/version_set.cc:121-156 | Linear or binary search: no overlap if and only if every file lies wholly to one side of the range |
| Edits.LogAndApply | ios/Pods/leveldb-library/db/version_set.cc:777-860 | The new version is the old one minus the deleted files plus the added ones, level by level, in order |
| Edits.InstallCompaction | ios/Pods/leveldb-library/db/db_impl.cc:869-885 | The edit of a compaction removes its inputs and adds its outputs one level down |
| Edits.InstallFlush | ios/Pods/leveldb-library/db/db_impl.cc:500-542 | The edit of a flush adds one file with a fresh number |
| Builder.Builder.Apply | ios/Pods/leveldb-library/db/version_set.cc:629-670 | Adding a file clears its deletion mark; the accumulated state per level is the fold of the edits |
| Builder.Builder.SaveTo | ios/Pods/leveldb-library/db/version_set.cc:672-731 | Merging the base files with the added ones gives the live files of each level, in order |
| Manifest.ReplayIsInstallation | ios/Pods/leveldb-library/db/version_set.cc:777-860 | One Builder over all edits gives the same files as installing them one by one, when no file number is used twice on a level |
| Manifest.SnapshotThenEdits | ios/Pods/leveldb-library/db/version_set.cc:862-987 | Replaying a snapshot record and the later edits gives, file for file, the running version |
| Manifest.ReuseDiverges | ios/Pods/leveldb-library/db/version_set.cc:666-667 | Why numbers must not be reused: deleting a file and adding another under its number resurrects the first on replay |
| Recovery.ReplayManifest | ios/Pods/leveldb-library/db/version_set.cc:862-987 | Reads back the version the records describe, the last numbers and the compaction pointers recorded |
| Recovery.RecoverLogFile | ios/Pods/leveldb-library/db/db_impl.cc:380-498 | Replaying one log adds its entries, in level 0 tables, to the recovered version, and nothing else: the records are cut into memtables, each written as soon as its memory is over the write buffer size and not before, the last one at the end of the log, under consecutive numbers |
| Recovery.RecoverLogs | ios/Pods/leveldb-library/db/db_impl.cc:330-376 | All logs not older than the recorded number, in order, bring back the rest of the history; their numbers are marked used |
| Recovery.WriteSnapshot | ios/Pods/leveldb-library/db/version_set.cc:1064-1092 | The record names every file of every level and every compaction pointer |
| Recovery.SnapshotReplays | ios/Pods/leveldb-library/db/version_set.cc:1064-1092 | ... and replaying it alone gives the version |
| Recovery.PointersStay | ios/Pods/leveldb-library/db/version_set.cc:1070-1078 | The manifest of a reopened store records the compaction pointers that were read from the old one |
| Durability.DiskHoldsStore | ios/Pods/leveldb-library/db/db_impl.cc:1207-1247 | What is on disk is what the store holds, plus the part of the logged batch not yet inserted |
| Durability.StrayTablesDurable | ios/Pods/leveldb-library/db/db_impl.cc:795-818 | Tables with numbers not recorded yet never change what a disk recovers to |
| LogRecovery.TornLogRecovers | ios/Pods/leveldb-library/db/db_impl.cc:417-470 | A log cut at any byte yields batches that continue the history up to some point, including every batch whose record was whole: every synced write is there |
| LogRecovery.CutIsDurable | ios/Pods/leveldb-library/db/db_impl.cc:289-378 | A disk whose newest log lost its end, after all the manifest counts, is as durable as before, for the history up to the cut |
| ShortLog.RecoverCut | ios/Pods/leveldb-library/db/db_impl.cc:289-378 | Recovery from a log cut anywhere, before what the manifest counts as well: the tables and logs give back exactly the history up to the cut, and the last sequence number is the higher of the manifest's and the cut's |
| ShortLog.ReadsAcrossGap | ios/Pods/leveldb-library/db/db_impl.cc:370-375 | Whatever is written under the numbers from there on, every read answers like the history that skips what was lost |
| StoreState.Lookup | ios/Pods/leveldb-library/db/db_impl.cc:1127-1142 | Memtable, immutable memtable, then version: the newest matching entry of all |
| StoreState.FaithfulAfter | ios/Pods/leveldb-library/db/db_impl.cc:887-1048 | After a compaction a key still reads like the history exactly when none of its tombstones was lost |
| Merger.MergingIterator.Next | ios/Pods/leveldb-library/table/merger.cc:55-79 | Moves one place forward in the sorted union, from either direction |
| Merger.MergingIterator.Prev | ios/Pods/leveldb-library/table/merger.cc:81-108 | Moves one place back in the sorted union, from either direction |
| Merger.MergingIterator.Seek | ios/Pods/leveldb-library/table/merger.cc:47-53 | Stands at the first entry of the union at or after the key |
| DbIter.DBIter.Seek | ios/Pods/leveldb-library/db/db_iter.cc:278-290 | Stands at the first visible user key at or after the target |
| DbIter.DBIter.Next | ios/Pods/leveldb-library/db/db_iter.cc:141-207 | Stands at the next visible user key, from either direction, skipping hidden and deleted entries |
| DbIter.DBIter.Prev | ios/Pods/leveldb-library/db/db_iter.cc:209-276 | Stands at the previous visible user key, from either direction |
| DbIter.DBIter.SeekToFirst | ios/Pods/leveldb-library/db/db_iter.cc:292-301 | Stands at the first visible user key |
| DbIter.DBIter.SeekToLast | ios/Pods/leveldb-library/db/db_iter.cc:303-308 | Stands at the last visible user key |
| DbIter.SeekYieldMeaning | ios/Pods/leveldb-library/db/db_iter.cc:266-281 | Where Seek ends: everything shown before it has a user key below the target, everything from it on at or after |
| DbIter.YieldedIsRead | ios/Pods/leveldb-library/db/db_iter.cc:39-137 | The iterator shows a key with a value if and only if a read at its sequence number gets that value |
| DbIter.YieldedKeysAscend | ios/Pods/leveldb-library/db/db_iter.cc:39-137 | It shows each user key once, in ascending order |
| TableFormat.TableBuilder.Add | ios/Pods/leveldb-library/table/table_builder.cc:94-123 | The deferred index entry lies at or after its block and before the entry added; the table's entries are those added; the block is written if and only if its estimated size with the entry reaches the block size |
| TableFormat.TableBuilder.Finish | ios/Pods/leveldb-library/table/table_builder.cc:198-253 | The blocks hold exactly the entries added, and every index key separates its block from the later ones; the index ascends; every block but the last is full with its last entry and was not full before |
| TableFormat.UserComparator.Separator | ios/Pods/leveldb-library/db/dbformat.cc:65-82 | An internal key in [start, limit) that is start or has a user key strictly between |
| TableFormat.UserComparator.Successor | ios/Pods/leveldb-library/db/dbformat.cc:84-97 | An internal key at or after the key |
| TableFormat.DefaultIsValid | ios/Pods/leveldb-library/util/comparator.cc:31-67 | The default comparator gives tables what they ask of a comparator |
| TableReader.InternalGet | ios/Pods/leveldb-library/table/table.cc:214-242 | One index seek, one filter answer and one block read find the newest entry of the user key at or below the sequence in the whole table |
| TableReader.OneBlockDecides | ios/Pods/leveldb-library/table/table.cc:214-242 | No earlier or later block can hold a newer one |
| TwoLevel.TwoLevelIterator.CurrentIs | ios/Pods/leveldb-library/table/two_level_iterator.cc:31-47 | key() and value() are the entry of the whole table at the position the iterator stands at |
| TwoLevel.TwoLevelIterator.Seek | ios/Pods/leveldb-library/table/two_level_iterator.cc:82-87 | Stands at the first entry at or after the key among all blocks |
| TwoLevel.TwoLevelIterator.Next | ios/Pods/leveldb-library/table/two_level_iterator.cc:103-107 | One place forward over all blocks, skipping empty ones |
| TwoLevel.TwoLevelIterator.Prev | ios/Pods/leveldb-library/table/two_level_iterator.cc:109-113 | One place back over all blocks, skipping empty ones |
| TwoLevel.TwoLevelIterator.SeekToLast | ios/Pods/leveldb-library/table/two_level_iterator.cc:96-101 | The last entry of the last block that has one |
| FilteredTable.FilteredTableBuilder.Finish | ios/Pods/leveldb-library/table/table_builder.cc:125-139 | Blocks follow one another without a gap, and the filter block never denies a key at the offset of the block that holds it |
| FilteredTable.Get | ios/Pods/leveldb-library/table/table.cc:222-226 | So a lookup that trusts a denial still finds the newest entry |
| Filters.BloomPolicy.CreateFilter | ios/Pods/leveldb-library/util/bloom.cc:28-54 | The filter's bits are exactly the probes of its keys, its size as computed; what was in the string stays |
| Filters.BloomPolicy.KeyMayMatch | ios/Pods/leveldb-library/util/bloom.cc:56-80 | Answers whether all probes of the key are set, with the encoded number of probes |
| Filters.BloomPolicy.MatchesExactly | ios/Pods/leveldb-library/util/bloom.cc:56-80 | A key matches if and only if each of its probes falls on a probe of some key of the filter |
| Filters.BloomPolicy.NoFalseNegative | ios/Pods/leveldb-library/util/bloom.cc:28-80 | Every key of the filter matches |
| Filters.DeltaRotates | ios/Pods/leveldb-library/util/bloom.cc:47 | The step between probes is the hash with its lower 17 bits moved to the top |
| Filters.ProbeAt | ios/Pods/leveldb-library/util/bloom.cc:46-52 | The j-th probe is the hash plus j steps in 32 bits |
| FilterBlock.FilterBlockBuilder.StartBlock | ios/Pods/leveldb-library/table/filter_block.cc:21-27 | Closes the filters of all 2 KiB ranges before the new offset |
| FilterBlock.FilterBlockBuilder.GenerateFilter | ios/Pods/leveldb-library/table/filter_block.cc:51-75 | The keys gathered, cut back out of the flattened string, make exactly the next filter |
| FilterBlock.FilterBlockBuilder.Finish | ios/Pods/leveldb-library/table/filter_block.cc:35-49 | The block has the computed size; its reader admits every key at its block's offset and denies everything where no key was added |
| BlockIter.RoundTrip | ios/Pods/leveldb-library/table/block_builder.cc:61-105 | Building a block of any entries with any restart interval and iterating gives the entries back; a block exists exactly when its computed size fits 32 bits |
| BlockIter.Build | ios/Pods/leveldb-library/table/block_builder.cc:61-105 | The bytes are a well-formed block of exactly these entries, of the computed size |
| BlockBuilder.BlockBuilder.Add | ios/Pods/leveldb-library/table/block_builder.cc:71-105 | The buffer is the entries with maximal shared prefixes, restarting every interval |
| BlockIter.Iter.Seek | ios/Pods/leveldb-library/table/block.cc:164-202 | Stands at the first entry with key at or after the target |
| BlockIter.Iter.Prev | ios/Pods/leveldb-library/table/block.cc:143-162 | Stands at the previous entry, found from the restart point before |
| BlockIter.Iter.Next | ios/Pods/leveldb-library/table/block.cc:138-141 | Stands at the next entry with its full key rebuilt |
| BlockIter.Iter.SeekToLast | ios/Pods/leveldb-library/table/block.cc:209-214 | Stands at the last entry |
| BlockFormat.DecodeEntry | ios/Pods/leveldb-library/table/block.cc:55-75 | The fast path for three one-byte lengths agrees with decoding three varints and comparing their sum with the bytes left in 32-bit words |
| BlockFormat.AcceptedFits | ios/Pods/leveldb-library/table/block.cc:71-73 | An entry that is accepted ends before the limit if and only if its two lengths add up without wrapping around |
| BlockFormat.WrappedIsAccepted | ios/Pods/leveldb-library/table/block.cc:71-73 | Lengths 0xffffffff and 1 are accepted whatever follows |
| LogRoundTrip.TornTail | ios/Pods/leveldb-library/db/log_reader.cc:56-174 | For any records and any byte prefix of their file the reader returns exactly the records wholly in the prefix, in order, and reports no corruption |
| LogRoundTrip.WholeExactly | ios/Pods/leveldb-library/db/log_reader.cc:56-174 | Record k is among them if and only if its last fragment ends within the prefix |
| LogRoundTrip.RoundTrip | ios/Pods/leveldb-library/db/log_writer.cc:34-80 | The whole file gives back every record |
| LogRoundTrip.WriteCrashRead | ios/Pods/leveldb-library/db/log_writer.cc:34-108 | Writer, cut and reader composed as code |
| LogCorruption.CorruptByte | ios/Pods/leveldb-library/db/log_reader.cc:189-271 | One byte of any written fragment is changed, in its checksum, type or payload: the reader returns exactly the records before this one and those whose headers are not before the end of the damaged block, and reports one drop for the damaged fragment, one for the record it breaks and one for each fragment past the block that lacks its beginning; there is no report if and only if the change makes an empty record look like space set aside and no record goes on into the next block |
| LogCorruption.LostQuietly | ios/Pods/leveldb-library/db/log_reader.cc:233-240 | That exception at work: with the type byte of an empty record cleared, the record after it in the block is lost too and nothing is reported |
| LogCorruption.BeginningReads | ios/Pods/leveldb-library/db/log_reader.cc:56-174 | Whatever bytes follow, records that stand whole at the beginning of a file are returned first |
| LogFragments.AnyFragments | ios/Pods/leveldb-library/db/log_reader.cc:56-174 | A file of any intact fragments, of any types but 0, 5 and 6, as several writers may leave it: the records read are exactly the full fragments and the groups of a first, middle ones and a last, in order; a fragment is reported, once, exactly when it goes on with no record, begins one while another that has text is open, or has an unknown type |
| LogFragments.TypeFiveEnds | ios/Pods/leveldb-library/db/log_reader.h:64-72 | An intact fragment of type 5 is taken for the end of the file |
| LogWriter.Writer.AddRecord | ios/Pods/leveldb-library/db/log_writer.cc:34-80 | Appends the fragments of the record, with zero trailers where a header no longer fits |
| LogReader.Reader.ReadRecord | ios/Pods/leveldb-library/db/log_reader.cc:56-174 | On any bytes, the buffered state machine returns the record, position and dropped bytes of the one-pass definition |
| LogReader.Reader.ReadPhysicalRecord | ios/Pods/leveldb-library/db/log_reader.cc:189-271 | On any bytes, one physical record or the reason there is none |
| Crc32c.Extend | ios/Pods/leveldb-library/util/crc32c.cc:276-377 | Striped CRC32C of any buffer at any alignment equals the bit-serial definition of section 12.1 of RFC 3720 |
| Crc32c.StrideStep | ios/Pods/leveldb-library/util/crc32c.cc:294-303 | The four stride tables together advance a word over sixteen zero bytes |
| Crc32c.ExtendConcat | ios/Pods/leveldb-library/util/crc32c.h:14-20 | Extending over two pieces is extending over their concatenation |
| Crc32c.MaskUnmask | ios/Pods/leveldb-library/util/crc32c.h:29-38 | Unmask and Mask are inverse |
| CrcTables.ByteTable | ios/Pods/leveldb-library/util/crc32c.cc:20-63 | The eight entries of kByteExtensionTable at powers of two |
| CrcTables.StrideTable0 | ios/Pods/leveldb-library/util/crc32c.cc:65-108 | The eight entries of kStrideExtensionTable0 at powers of two |
| CrcTables.StrideTable1 | ios/Pods/leveldb-library/util/crc32c.cc:110-153 | The eight entries of kStrideExtensionTable1 at powers of two |
| CrcTables.StrideTable2 | ios/Pods/leveldb-library/util/crc32c.cc:155-198 | The eight entries of kStrideExtensionTable2 at powers of two |
| CrcTables.StrideTable3 | ios/Pods/leveldb-library/util/crc32c.cc:200-243 | The eight entries of kStrideExtensionTable3 at powers of two |
| CrcTables.EntriesAdd | ios/Pods/leveldb-library/util/crc32c.cc:20-243 | All five tables are linear: an entry is the exclusive or of the entries at the parts of its index, so those eight determine the table |
| Crc32c.CorruptByteShows | ios/Pods/leveldb-library/util/crc32c.cc:276-377 | Changing one byte changes the checksum |
| Coding.GetVarint | ios/Pods/leveldb-library/util/coding.cc:86-143 | The decoding loop computes the value of the groups, or fails exactly when they do not end in time |
| Coding.Varint64RoundTrip | ios/Pods/leveldb-library/util/coding.cc:55-70 | Encoding and decoding a 64 bit varint before any bytes |
| Coding.SliceRoundTrip | ios/Pods/leveldb-library/util/coding.cc:72-75 | Encoding and decoding a length-prefixed slice before any bytes |
| Coding.FixedDecodes | ios/Pods/leveldb-library/util/coding.h:54-101 | Fixed-width integers: every byte string is the encoding of its value |
| Bytewise.RankOrder | ios/Pods/leveldb-library/util/comparator.cc:27-29 | Bytewise order is the order of the strings' places among the reals |
| Bytewise.SeparatorBetween | ios/Pods/leveldb-library/util/comparator.cc:31-52 | FindShortestSeparator stays in [start, limit) and never grows |
| Bytewise.SeparatorIsLeast | ios/Pods/leveldb-library/util/comparator.cc:31-58 | Unless start is a prefix of the limit, no string between the two that is no prefix of the limit and no longer than their common prefix and one byte comes before the separator: start is raised whenever there is such a string, and as little as possible |
| Bytewise.SameOnStrings | ios/Pods/leveldb-library/util/comparator.cc:31-65 | On byte strings the comparator over places is FindShortestSeparator and FindShortSuccessor |
| Bytewise.FindShortSuccessor | ios/Pods/leveldb-library/util/comparator.cc:54-65 | Raises the first byte that is not 0xff and drops the rest |
| Bytewise.MeetsTables | ios/Pods/leveldb-library/util/comparator.cc:31-65 | On places, separator and successor satisfy what tables ask |
| EditCodec.RoundTrip | ios/Pods/leveldb-library/db/version_edit.cc:41-203 | Decoding an encoded edit succeeds if and only if its levels exist and its keys are not empty; the result is the edit if and only if the reading object had no compaction pointers, which Clear leaves in place |
| EditCodec.PairsOrdered | ios/Pods/leveldb-library/db/version_edit.h:86 | The order of the set of deleted files: by level, then by number, total and strict |
| EditCodec.InsertKeeps | ios/Pods/leveldb-library/db/version_edit.h:86 | Inserting in it gives the old elements and the new one, each once, in order |
| EditCodec.VersionEdit.EncodeTo | ios/Pods/leveldb-library/db/version_edit.cc:41-84 | Appends the fields in order |
| EditCodec.VersionEdit.DecodeFrom | ios/Pods/leveldb-library/db/version_edit.cc:105-203 | On any bytes, the loop computes the field-by-field decoding |
| SkipList.SkipList.Insert | ios/Pods/leveldb-library/db/skiplist.h:337-368 | The list holds the old entries and the new one, in order; every single pointer store on the way keeps all levels sorted sublists of the level below |
| SkipList.SkipList.PointForward | ios/Pods/leveldb-library/db/skiplist.h:363-365 | Storing the new node's own pointer is invisible |
| SkipList.SkipList.Publish | ios/Pods/leveldb-library/db/skiplist.h:366 | Linking the node on one level keeps the list valid, and only that level changes |
| SkipList.SkipList.FindGreaterOrEqual | ios/Pods/leveldb-library/db/skiplist.h:262-282 | The first node at or after the key, and its predecessor on every level |
| SkipList.SkipList.FindLessThan | ios/Pods/leveldb-library/db/skiplist.h:285-302 | The last node before the key |
| SkipList.SkipList.Contains | ios/Pods/leveldb-library/db/skiplist.h:371-378 | Membership in the list's entries |
| SkipList.SkipList.Get | ios/Pods/leveldb-library/db/memtable.cc:101-136 | The newest entry of the user key at or below the sequence number |
| HandleTable.HandleTable.FindPointer | ios/Pods/leveldb-library/util/cache.cc:115-121 | The slot of the handle with this key and hash, or the end of its chain when there is none |
| HandleTable.HandleTable.Insert | ios/Pods/leveldb-library/util/cache.cc:79-93 | Replaces the handle with the same key and hash, if any, and keeps all others; there are never more handles than chains |
| HandleTable.HandleTable.Remove | ios/Pods/leveldb-library/util/cache.cc:95-101 | Removes exactly the handle with this key and hash |
| HandleTable.HandleTable.Resize | ios/Pods/leveldb-library/util/cache.cc:123-147 | Every handle moves to its chain in a list of the first length 4, 8, 16, ... that is at least their number |
| HandleTable.BucketIsModulo | ios/Pods/leveldb-library/util/cache.cc:115-121 | With the length a power of two the mask picks the hash modulo the length |
| HandleTable.DoubledIsPower | ios/Pods/leveldb-library/util/cache.cc:123-127 | ... and it always is |
| LruCache.LRUCache.Insert | ios/Pods/leveldb-library/util/cache.cc:267-305 | Afterwards usage is within capacity or no unused entry is left; the entry with the same key leaves first, then the oldest of the LRU list in their order, and no more than needed |
| LruCache.LRUCache.Unref | ios/Pods/leveldb-library/util/cache.cc:226-238 | The entry is freed exactly with its last reference and moves to the LRU list when only the cache holds it |
| LruCache.LRUCache.Lookup | ios/Pods/leveldb-library/util/cache.cc:253-260 | Finds the cached entry with this key and gives the caller a reference |
| LruCache.LRUCache.Release | ios/Pods/leveldb-library/util/cache.cc:262-265 | Takes one reference back |
| LruCache.LRUCache.Erase | ios/Pods/leveldb-library/util/cache.cc:319-322 | Exactly the entry with this key leaves the cache |
| LruCache.LRUCache.Prune | ios/Pods/leveldb-library/util/cache.cc:324-334 | All unused entries leave, oldest first |
| StoreScan.AllEntries | ios/Pods/leveldb-library/db/db_impl.cc:1072-1097 | Memtables, files of level 0 and deeper levels, merged, are all entries of the store in internal key order |
| StoreScan.ListAll | ios/Pods/leveldb-library/db/db_iter.cc:167-218 | Driving the user iterator from first to last lists each entry it should show once, in ascending user key order |
| StoreScan.ListedIsRead | ios/Pods/leveldb-library/db/db_iter.cc:167-218 | A key and value are listed if and only if a read at the sequence number gets that value |
| GroupCommit.WriteQueue.Arrive | ios/Pods/leveldb-library/db/db_impl.cc:1195-1206 | A writer joins the line at its end and sleeps unless it is at the front |
| GroupCommit.WriteQueue.Lead | ios/Pods/leveldb-library/db/db_impl.cc:1208-1217 | If there is room, no background error stands and the front writer brought a batch, it builds the longest group allowed, numbered next; in every other case it alone is answered, with the error or with success |
| GroupCommit.WriteQueue.BuildBatchGroup | ios/Pods/leveldb-library/db/db_impl.cc:1270-1316 | The batch holds the updates of the writers taken, in order; the first one left out was barred by the sync rule or the size |
| GroupCommit.WriteQueue.Conclude | ios/Pods/leveldb-library/db/db_impl.cc:1219-1262 | The group's status is the log's when the append failed, else the sync's if the leader syncs, else Ok. A record with the group's updates is appended if and only if the append succeeded, they join the memtable under their numbers if and only if the status is Ok, every member is answered with it, the range is spent either way, and a failed sync stays as the background error |
| GroupCommit.AnsweredOnce | ios/Pods/leveldb-library/db/db_impl.cc:1249-1262 | Everyone who arrived is in line or has been answered, never both, in order of arrival; members have their group's outcome |
| GroupCommit.FrontRuns | ios/Pods/leveldb-library/db/db_impl.cc:1201-1206 | No wake-up is lost: the front writer and those answered are never asleep |
| GroupCommit.RangesAscend | ios/Pods/leveldb-library/db/db_impl.cc:1210-1217 | Sequence ranges of groups are disjoint, ascend in queue order and leave no gaps between neighbours |
| GroupCommit.AcknowledgedIsWritten | ios/Pods/leveldb-library/db/db_impl.cc:1219-1239 | A write answered with success is whole in one log record and in the memtable under its numbers, and on stable storage if it asked for a sync |
| GroupCommit.LogRebuildsMemtable | ios/Pods/leveldb-library/db/db_impl.cc:1219-1239 | Replaying the log gives the memtable if and only if no group with updates failed after its append |
| WriteBatches.WriteBatch.Append | ios/Pods/leveldb-library/db/write_batch.cc:144-148 | Iterating the appended batch is iterating the two in turn |
| WriteBatches.WriteBatch.SetSequence | ios/Pods/leveldb-library/db/write_batch.cc:94-96 | The batch gets its sequence number in place; its updates stay |
| WriteBatches.WriteBatch.Put | ios/Pods/leveldb-library/db/write_batch.cc:98-103 | One more update at the end, the count raised in place |
| WriteBatches.Iterate | ios/Pods/leveldb-library/db/write_batch.cc:42-80 | On any bytes: what the handler is given and how the walk ends |
| WriteBatches.InsertInto | ios/Pods/leveldb-library/db/write_batch.cc:132-137 | Consecutive sequence numbers from the batch's own, up to a fault |
| WriteBatches.TornBatchIsCorrupt | ios/Pods/leveldb-library/db/write_batch.cc:42-80 | A batch cut short anywhere is reported as corrupt |
| NanopbDecode.RoundTrip | ios/Pods/nanopb/pb_encode.c:528-550 | For every schema of required, optional, counted repeated, oneof and submessage fields and every message that fits it and whose encoding is shorter than 2^32 bytes, as a size_t of 32 bits has it: encoding succeeds if and only if the buffer is large enough, and decoding the bytes gives the message |
| NanopbRoundTrip.MessageBack | ios/Pods/nanopb/pb_decode.c:934-1082 | Decoding the encoded fields, at any nesting depth, rebuilds the message with all required fields seen |
| NanopbRoundTrip.FieldBack | ios/Pods/nanopb/pb_decode.c:406-483 | The decoding loop reads exactly the bytes of one field and leaves the struct with that field merged into what was there |
| NanopbRoundTrip.MergeBack | ios/Pods/nanopb/pb_decode.h:70-76 | Decoding an encoded message into any struct with room updates the fields that exist in the message and keeps the others: arrays grow, submessages are merged in turn at any depth, a member of a union takes the others out |
| NanopbRoundTrip.ConcatenationMerges | ios/Pods/nanopb/pb_decode.h:70-76 | Two encodings one after the other decode to the second message merged into the first |
| NanopbRoundTrip.OneByOneBack | ios/Pods/nanopb/pb_decode.c:424-472 | An array is also read value by value, each with its tag, whether or not its type could be packed |
| NanopbUnknown.UnknownFieldsIgnored | ios/Pods/nanopb/pb_decode.c:957-995 | Any number of varint, 64 bit, counted and 32 bit entries with tags the schema does not have, before, between and after the fields of an encoding, leave what is decoded as it is |
| NanopbUnknown.EntrySkipped | ios/Pods/nanopb/pb_decode.c:321-331 | ... each of them in any state of the loop and before any bytes |
| NanopbUnknown.OtherWireTypeFails | ios/Pods/nanopb/pb_decode.c:321-331 | An entry of an unknown tag with one of the other four wire types makes decoding fail |
| NanopbSafety.DecodedHolds | ios/Pods/nanopb/pb_decode.c:406-483 | Whatever the bytes, a message that decodes has integers in range, arrays, strings and bytes no longer than the struct has room for, at most one member of each union and its first 64 required fields, at every depth |
| NanopbEncode.Encode | ios/Pods/nanopb/pb_encode.c:528-550 | Succeeds if and only if no array or bytes field is over its size and there is room; then it has written, or in a sizing stream counted, exactly the encoded bytes |
| NanopbEncode.EncodeSubmessage | ios/Pods/nanopb/pb_encode.c:717-765 | The sizing pass counts what the writing pass writes, at every depth; the size never changes between the passes |
| NanopbEncode.EncodePacked | ios/Pods/nanopb/pb_encode.c:147-236 | A packed array is preceded by its exact size, computed or counted |
| NanopbDecode.Decode | ios/Pods/nanopb/pb_decode.c:934-1082 | On any bytes, the loop with its iterator and bit set computes the one-pass definition, errors and early ends included |
| NanopbDecode.DecodeField | ios/Pods/nanopb/pb_decode.c:406-483 | On any bytes: singular, repeated, packed and oneof fields, with array overflow |
| NanopbDecode.FieldIter.Find | ios/Pods/nanopb/pb_common.c:87-104 | From any position the cyclic iterator finds the field of a tag, or none after one round, and knows its required index |
| NanopbDecode.CheckRequired | ios/Pods/nanopb/pb_decode.c:1040-1079 | The bits of the first 64 required fields are all set if and only if those fields were met |
| NanopbDecode.DecodeVarint32 | ios/Pods/nanopb/pb_decode.c:187-246 | On any bytes, the loop computes the 32 bit varint with its overflow rules |
| NanopbVarint.Varint32Is | ios/Pods/nanopb/pb_decode.c:187-246 | Which varints it takes, in closed form and for any bytes: five bytes if the fifth is below 16; longer ones if each byte past the fifth has no bits, or is a sign extension of a number with bit 31 set; the result is the sum of the first five groups in 32 bits |
| NanopbVarint.NeverEnds | ios/Pods/nanopb/pb_decode.c:187-246 | A varint without a last byte is refused |
| NanopbVarint.OverflowUnseen | ios/Pods/nanopb/pb_decode.c:224-243 | A varint of 35 bits followed by a byte without bits is taken for its lower 32 bits |
| Layouts.FixedDigits | ios/Pods/leveldb-library/util/coding.h:54-101 | Byte i of a fixed-width integer is its digit i in base 256 |
| Layouts.VarintDigits | ios/Pods/leveldb-library/util/coding.cc:21-70 | Byte i of a varint is its digit i in base 128, with the high bit set on all bytes but the last |
| Layouts.TestValue | ios/Pods/leveldb-library/util/crc32c.cc:266-274 | The checksum of the test buffer is the value the source keeps for it |
| Layouts.LogHeader | ios/Pods/leveldb-library/db/log_writer.cc:82-108 | Masked checksum, length and type, low bytes first |
| Layouts.LogTypes | ios/Pods/leveldb-library/db/log_format.h:16-27 | The numbers of the four fragment types; a trailer is zeros |
| Layouts.BatchRecords | ios/Pods/leveldb-library/db/write_batch.cc:5-14 | Tag 1 with two counted strings, tag 0 with one |
| Layouts.BatchHeader | ios/Pods/leveldb-library/db/write_batch.cc:5-8 | Eight bytes of sequence number, four of count, low bytes first |
| Layouts.EditNumbers | ios/Pods/leveldb-library/db/version_edit.cc:12-24 | Tags 2, 3, 4 and 9 with a number |
| Layouts.EditStrings | ios/Pods/leveldb-library/db/version_edit.cc:12-24 | Tag 1 with a string, tag 5 with a level and a key |
| Layouts.EditFiles | ios/Pods/leveldb-library/db/version_edit.cc:12-24 | Tag 6 with a level and a number, tag 7 with level, number, size and two keys |
| Layouts.BlockEntry | ios/Pods/leveldb-library/table/block_builder.cc:16-21 | Three lengths, the rest of the key, the value |
| Layouts.FilterBits | ios/Pods/leveldb-library/util/bloom.cc:50 | Bits of a byte are numbered from the lowest |
| Layouts.TagByte | ios/Pods/nanopb/pb_encode.c:669-673 | Field number and wire type in one byte |
| Layouts.IntegerWidths | ios/Pods/nanopb/pb_decode.c:1364-1377 | The integers of one, two, four and eight bytes |
| Layouts.NanopbValues | ios/Pods/nanopb/pb_encode.c:630-639 | Zigzag, two's complement in ten bytes, counted strings; the numbers of the wire types |

## Left out

* Runs.Run: error returns, `reuse_logs` and comparator mismatches are not commands, nor what a release build does after a clash; which level a compaction by score takes, and which file seeks decide for, is a parameter of the command; crashes lose no bytes already handed to the file system, except as LogRecovery and ShortLog state for the newest log.
* Db.DBImpl.FinishCompaction: the merge loop's steps depend on the inputs only, so they are taken together at its end, with the file numbers of the outputs; its error and shutdown exits are left out, except that a crash may come after any of its tables were written.
* ShortLog.RecoverCut: that the tables alone read like the flushed part of the history is a condition here, and not kept as an invariant of the store; the store that goes on across the gap is described by its reads, not by another run.
* LogRoundTrip.TornTail: reading from offset 0 only; a non-zero initial offset, the legacy writer quirks it serves and the byte counts given to the corruption reporter are not modelled.
* LogCorruption.CorruptByte: a change in the two length bytes of a header is left out, since what the reader then takes for a fragment is other bytes, whose checksum may fit by chance; LogCorruption.BeginningReads covers what stands before them.
* CompactionReads.ExactlyWhenNoTombstoneIsLost: the error and shutdown exits of the merge loop are left out; entries whose key does not parse occur in DbIter and in the merge loop but not in a store.
* Db.DBImpl.RemoveObsoleteFiles: the pending outputs are a set that is kept; temporary, info log and lock files are not modelled.
* Crc32c.Extend: of the literal tables at `util/crc32c.cc:20-243` the entries at powers of two are stated, the others follow by `CrcTables.EntriesAdd` and are not listed; the accelerated path is external.
* Filters.BloomPolicy.CreateFilter: the hash is any function to 32 bits; rounding of the number of probes from `bits_per_key * 0.69` is a parameter between 1 and 30.
* GroupCommit.WriteQueue.BuildBatchGroup: batches are their bytes, so aliasing between callers' batch objects is not shown; that the first caller's batch gets its sequence number written into it is.
* SkipList.SkipList.Insert: heights are parameters; a published pointer is one step of the model, the memory ordering that makes it one is not.
* StoreScan.AllEntries: the merging iterator is run to its end before the user iterator starts, where the source interleaves their moves; iterators are otherwise each proved against a cursor over a sorted sequence, table and block iterators included, and one that stays open while the store goes on is the `HoldVersion` command.
* GroupCommit is not composed with Db: `Runs` writes one batch at a time, which is what a group is once it is built.
* FilterBlock and Filters: `base_lg` of 64 or more is an undefined shift in C and a zero index here.
* BlockIter: on a block whose lengths wrap around the source reads past the block; the iterator is about blocks as the builder lays them out.
* The manifest as bytes: records are encoded by EditCodec and framed by the log format, but Recovery starts from decoded records; the comparator name in them is not used.
* MemTable entry encoding, arena, table cache and block cache keys, Snappy, statistics, scores and seek counts, repair, the C interface, POSIX environment, mutexes and the memory model.
* NanopbDecode.Decode: callbacks, extensions, pointer allocation, fixed-count arrays, fixed-length bytes and proto3 fields without presence are not in the schema; a struct is one list of values per field, so offsets, padding and the default values of absent fields are not shown.
* NanopbDecode.DecodeVarint32: a varint of more than 36 bytes would wrap the C code's bit counter; the model's counter does not wrap.
* The app's own files, SharpYUV and BoringSSL fragments: platform glue and vendor code.
