# LevelDB and nanopb: a verified model

The application in this repository is a stub; its logic is in two vendored libraries. This project models both in
Dafny and proves what they are for.

**LevelDB** is a storage engine that keeps key-value entries in a log, a memtable and seven levels of sorted table files,
and merges the files in the background. **nanopb** encodes and decodes protocol-buffer messages driven by tables of field
descriptors.

## How the model is laid out

- `DbFormat`, `Versions`, `Choosing`, `CompactionReads`, `Database`, `ReadsOverRuns`: the engine as a state machine. Its
  steps are group writes, memtable switches, flushes, trivial moves, the start, output files and end of a merge
  compaction with any other steps in between, and snapshots. `ClientView` proves that to its clients this machine is a
  map with a frozen copy for each snapshot. `Stored` says where every entry ever written is. `Gaps` has
  the exact conditions for flushes during a compaction; `Reachability`, `Resurrection` and `GapRun` are runs on which the
  code breaks its promise.
- `Lookup`, `Inputs`, `PickInputs`, `PickCompaction`, `CompactionWork`, `OutputCuts`: the algorithms of `version_set.cc` and
  `db_impl.cc` as methods, proved against what that state machine asks of them.
- `Recovery`, `Durability`, `Crashes`, `MachineCrashes`, `CrashPrefix`, `SyncGap`, `GroupCommit`, `FileSets`,
  `ManifestReplay`: the disk (tables, logs with synced prefixes, manifests), removal of obsolete files, crashes of the
  process and of the machine at any point, the writer queue, and replay of the manifest. `CrashView` is the clients' view
  over runs with crashes.
- `Cursors`, `DbIter`, `Merger`, `Tables`, `TwoLevel`, `Block`: the iterators, each refining an index into a sorted list;
  `Scan` puts them together.
- `Coding`, `Comparator`, `Log`, `WriteBatch`, `VersionEdit`, `FilterBlock`, `Bloom`: the byte formats. `LogDamage` and
  `TornFormats` are about damaged bytes, `BatchEntries` about the way from a batch's bytes to the engine's entries, and
  `ByteExamples` has a small example of each format.
- `SkipList`, `HandleTable`, `LruCache`, `HandleList`: the data structures; `LruRuns` is the cache over whole sequences of
  calls.
- `ProtoFields`, `ProtoEncode`, `ProtoDecode`, `ProtoRoundTrip`, `ProtoRequired`: descriptors, values, the wire format and
  its inverse. `ProtoConcat` is decoding piece by piece (unknown fields, repeated occurrences, concatenated and cut
  messages), `ProtoBounds` what any decoded message keeps to. `ProtoIter`, `ProtoBitmap`, `ProtoReader`: the decoder at
  work on a stream.

Code that changes fields or buffers step by step is a class or a method with a loop, proved against a function or a
predicate; the properties are lemmas about that.

## What the proofs found

Five properties hold only under a condition. For each, a concrete input shows that the condition is needed, and a theorem
says exactly when the property holds. The first three are inputs on which the code does something its users would not
expect.

- **A deleted value can come back.** `SetupOtherInputs` adds boundary files at the inputs' level only. If a user key is
  split between an input and a file that stays one level down, a tombstone may be dropped while an older value remains.
  `Resurrection.DeletedValueReturns` is a run that does it; `CompactionReads.ReadsPreservedIff` says exactly when.
- **A flush can land inside a manual compaction's output.** Inputs of a manual compaction may leave a gap.
  `GapRun.ManualGapOverlaps` is a run that does it; `Gaps.LandsInGapIff` says exactly for which compactions it can happen,
  `Gaps.FlushSafeIff` exactly which flushes are safe, and `PickCompaction.Pick` proves that automatic compactions have
  inputs without gaps.
- **A synced write can survive a machine crash that loses an earlier one.** Switching logs does not sync the old log.
  `SyncGap.EarlierWriteLost` is a run on which it happens; `CrashPrefix.NoHolesIff` and
  `CrashPrefix.SyncedBringsEarlierIff` say exactly in which states it cannot.
- **Manifest replay needs fresh file numbers.** `ManifestReplay.ReusedNumberReturns` shows a number used twice bringing a
  deleted file back, `ManifestReplay.TwinVanishes` a file not read back; `ManifestReplay.ReplayIsLiveIff` has the exact
  condition, and the engine, where a number is never used twice (`Database.NextKeepsInv`), meets it.
- **`VersionEdit::Clear` keeps the compaction pointers**, so decoding into a used edit accumulates them:
  `VersionEdit.DecodeEncoded` has the exact condition.

## Conventions

- In the engine a user key is an integer: only comparisons matter there, and the finitely many keys of a run can be
  numbered in order. The byte formats work on bytes.
- Internal keys are distinct, as sequence numbers are; sequence numbers start at 1, grow along the history, and have gaps only
  where a machine crash took entries.
- A level is a set of files in the state machine and a sorted list in the algorithms; `Lookup.ListsOf` ties them together.
- A merge compaction reserves file numbers as it opens output files and installs all of them at its end. The flush
  step of the model asks that the table does not land among entries the compaction is about to put at the same level;
  every other flush during a compaction is a step, and `Gaps.FlushSafeIff` shows why these are not.
- A crash of the process leaves the disk as it is; a crash of the machine may cut every log anywhere after its synced part.
  Either is followed by any number of recoveries that are cut short and one that is completed; the disk afterwards is what
  the crash left with what recovery added. The history that counts is then the one before without the entries lost.
- Decisions that depend on sizes and options (when a memtable or an output file is full, whether the mutex is released
  for a flush) are parameters or nondeterministic steps, so the theorems hold for every choice.
- Hash functions and checksums are arbitrary functions, except that a checksum is one 32-bit number.

## Model

| member | source | states |
|---|---|---|
| ClientView.RefinesMap | ios/Pods/leveldb-library/db/db_impl.cc:1110-1155 | on every run that resurrects no deleted value the database is a map from keys to values: reading the latest data gives what the batches written so far leave in the map, an empty value included, and reading at each live snapshot what the map was when it was taken, whatever was flushed, moved and merged |
| ClientView.LastWriteIsRead | ios/Pods/leveldb-library/db/write_batch.cc:98-124 | after a write, reading a key of the batch gives the value of the last operation on it if that is a Put, whatever the value is, and nothing if it is a Delete |
| ClientView.OthersUnchanged | ios/Pods/leveldb-library/db/write_batch.cc:115-129 | a write changes no key that is not in its batch, and nothing that a read at an earlier sequence number gives |
| ClientView.SnapshotsRepeatable | ios/Pods/leveldb-library/db/db_impl.cc:1176-1184 | from the moment GetSnapshot takes a snapshot until that one is released, wherever other releases move it in the list, reading any key at it gives what reading the latest data gave at that moment |
| Database.NextKeepsInv | ios/Pods/leveldb-library/db/db_impl.cc:697-776 | every step of the engine (group write, memtable switch, flush at any moment of a running compaction, trivial move, start, output file and end of a merge compaction, taking and releasing a snapshot) keeps: levels above 0 sorted and disjoint, newer entries above older ones, younger level-0 files newer, unique file numbers, memtables newer than all files, the running compaction's inputs still in place; and smallest_snapshot never falls |
| Database.FlushKeepsInv | ios/Pods/leveldb-library/db/db_impl.cc:500-575 | a memtable that becomes a table in the middle of a merge compaction, at level 0, 1 or 2, leaves the compaction's inputs and the room for its outputs intact |
| Database.FlushKeepsClear | ios/Pods/leveldb-library/db/db_impl.cc:916-928 | where the output level of a running compaction is deeper than flushes reach, or its inputs leave no gap, no table the placement rule allows can lie among the entries it keeps: nothing is held back |
| Database.FinishKeepsInv | ios/Pods/leveldb-library/db/db_impl.cc:869-885 | replacing the inputs of a compaction by its outputs keeps the invariant whatever was written and flushed since it started |
| Database.MoveKeepsInv | ios/Pods/leveldb-library/db/db_impl.cc:727-742 | a trivial move keeps the invariant |
| Versions.FlushKeepsRecency | ios/Pods/leveldb-library/db/version_set.cc:470-495 | a new table put where PickLevelForMemTableOutput allows keeps every level disjoint and every upper entry of a key newer than every lower one |
| Versions.ReplaceKeepsRecency | ios/Pods/leveldb-library/db/version_set.cc:1380-1439 | replacing inputs by outputs made of their entries keeps the recency order, provided the files left behind at the inputs' level hold newer entries of shared keys |
| ReadsOverRuns.RecencyOverRuns | ios/Pods/leveldb-library/db/version_set.cc:1355-1439 | the invariant holds in every state of every run from an empty database |
| ReadsOverRuns.ReadsOverRuns | ios/Pods/leveldb-library/db/db_impl.cc:1110-1155 | in every state of a run, a read at any live snapshot, at the last sequence number, or above gives what the whole write history says, if no compaction was installed that drops a tombstone of a key split between an input and a file that stays one level down |
| CompactionReads.ReadsPreservedIff | ios/Pods/leveldb-library/db/db_impl.cc:916-1009 | a merge compaction leaves every read at or above smallest_snapshot unchanged if and only if it drops no tombstone whose key has a live older value in a file that stays one level down |
| CompactionReads.KeptIs | ios/Pods/leveldb-library/db/db_impl.cc:938-967 | an entry is kept exactly when it is above smallest_snapshot, or is the newest of its key at or below it and is not a deletion with nothing of its key deeper |
| CompactionReads.OneOldEntry | ios/Pods/leveldb-library/db/db_impl.cc:938-967 | of each key a compaction keeps at most one entry that no snapshot tells from older ones |
| Database.HorizonIs | ios/Pods/leveldb-library/db/db_impl.cc:899-903 | smallest_snapshot is the oldest live snapshot, or the last sequence number if there is none |
| CompactionReads.ResurrectionNeedsSplit | ios/Pods/leveldb-library/db/version_set.cc:1510-1529 | a compaction none of whose keys is split between an input and a file that stays one level down cannot bring a deleted value back |
| Resurrection.DeletedValueReturns | ios/Pods/leveldb-library/db/version_set.cc:1380-1400 | the condition is needed: a run of the engine from the empty database, each flush at the only level PickLevelForMemTableOutput can answer and each compaction with the only inputs SetupOtherInputs can, ends in a state where a read returns a value the history deleted |
| Reachability.LevelIs | ios/Pods/leveldb-library/db/version_set.cc:470-495 | when the level of a flush is forced, however the files of a level are listed and whatever legal max_file_size is: nothing overlaps down to it, something one level further does or it is the lowest allowed, and little lies at levels 2 and 3 |
| Reachability.OnlyInput | ios/Pods/leveldb-library/db/version_set.cc:1380-1439 | a level with a single file leaves SetupOtherInputs no choice: that file and the files one level down that overlap it |
| Gaps.ClearIffGapFree | ios/Pods/leveldb-library/db/version_set.cc:470-495 | files that overlap no input all lie clear of the merged key range exactly when the inputs leave no gap |
| Gaps.LandsInGapIff | ios/Pods/leveldb-library/db/version_set.cc:470-495 | for any listing of the levels and any size limit: a table at the level PickLevelForMemTableOutput answers can land among the entries a running compaction keeps if and only if the output level is 1 or 2 and some keys between two of those entries are met by no file down to that level and stop a table there (at level 1: a file of level 2 is in the way of a key and within the limit, or nothing at level 2 and more than the limit at level 3; at level 2: no more than the limit at level 3) |
| Gaps.GapFreeIsClosed | ios/Pods/leveldb-library/db/version_set.cc:1247-1299 | inputs without gaps, as every automatic compaction has, leave no such keys |
| Gaps.FlushSafeIff | ios/Pods/leveldb-library/db/db_impl.cc:916-928 | for one flush: the output level stays disjoint, however the compaction's outputs are cut, if and only if the table lands clear of the entries to keep, which is what the engine's flush step asks for |
| GapRun.ManualGapOverlaps | ios/Pods/leveldb-library/db/version_set.cc:1441-1472 | the condition is needed: in a reachable state, with inputs and flush level that the code picks, a table flushed during a manual compaction overlaps its output at the same level |
| Lookup.FindFile | ios/Pods/leveldb-library/db/version_set.cc:87-105 | the binary search ends at the first file whose largest key is at or after the lookup key |
| Lookup.SomeFileOverlapsSorted | ios/Pods/leveldb-library/db/version_set.cc:121-156 | one binary search, if there is a lower bound, and one comparison decide whether any file of a disjoint level meets a range, either bound of which may be missing |
| Lookup.SomeFileOverlapsUnsorted | ios/Pods/leveldb-library/db/version_set.cc:121-141 | the level-0 form decides the same by looking at every file, missing bounds included |
| Lookup.SeekGetIsVisible | ios/Pods/leveldb-library/db/memtable.cc:101-135 | looking only at the entry a Seek to the lookup key lands on gives the newest entry visible at the snapshot, for memtables and tables |
| Lookup.Level0Get | ios/Pods/leveldb-library/db/version_set.cc:281-303 | trying overlapping level-0 files newest first finds the newest visible entry of the level |
| Lookup.VersionGet | ios/Pods/leveldb-library/db/version_set.cc:281-400 | the first hit of the search is the newest visible entry of the user key in the whole version |
| Lookup.Get | ios/Pods/leveldb-library/db/db_impl.cc:1110-1155 | memtable, immutable memtable, then files: the answer is the newest visible entry of all of them, and over a safe run it is what the write history says |
| Inputs.GetOverlappingInputs | ios/Pods/leveldb-library/db/version_set.cc:498-538 | the restarts terminate; at level 0 the result is exactly the files meeting the least range that contains the request and is closed under overlap; the range has no uncovered key that the request did not have |
| PickInputs.FindLargestKey | ios/Pods/leveldb-library/db/version_set.cc:1303-1317 | the largest internal key of the files |
| PickInputs.FindSmallestBoundaryFile | ios/Pods/leveldb-library/db/version_set.cc:1321-1339 | among the files that continue the user key of the given internal key, the one with the smallest key |
| PickInputs.AddBoundaryInputs | ios/Pods/leveldb-library/db/version_set.cc:1355-1378 | the loop terminates; no file is left whose smallest key continues the user key of the largest input; contiguous inputs stay contiguous and gap-free inputs gap-free |
| PickInputs.GoodStayersNewer | ios/Pods/leveldb-library/db/version_set.cc:1380-1384 | files left behind at the inputs' level hold only newer entries of any user key they share with the inputs |
| PickInputs.SetupOtherInputs | ios/Pods/leveldb-library/db/version_set.cc:1380-1439 | the chosen inputs meet what a compaction step of the engine demands, contain the files it was started with, and leave no gap if those left none; they are the start with its boundary files and everything it meets one level down, grown exactly when more files of the level fit, the total stays under the limit, and the lower inputs stay the same |
| PickInputs.Grow | ios/Pods/leveldb-library/db/version_set.cc:1396-1431 | the inputs grow exactly when more of the level can be had without more of the next and under the size limit, and then to all of it |
| PickCompaction.FirstFile | ios/Pods/leveldb-library/db/version_set.cc:1255-1282 | the file that asked by seeks, or the first file past the compaction pointer, wrapping around to the first of all |
| PickCompaction.Pick | ios/Pods/leveldb-library/db/version_set.cc:1247-1299 | an automatic compaction, by size or by seeks, has inputs the engine may start with, without gaps, grown as SetupOtherInputs does from the file that asked for it or is next after the compaction pointer, at level 0 from the closure of its range |
| PickCompaction.CompactRange | ios/Pods/leveldb-library/db/version_set.cc:1441-1472 | a manual compaction starts from the closure of the request at level 0, and deeper from the shortest run of overlapping files that reaches the size limit; its inputs are grown from those and such that the engine may start with them; it does nothing exactly when no file of the level meets the request |
| PickCompaction.TrivialMoveStep | ios/Pods/leveldb-library/db/version_set.cc:1492-1500 | where the code's test for a trivial move passes, moving the one input down is a step of the engine: it keeps the order between levels and every entry, and changes no other file |
| PickCompaction.PickLevelForMemTableOutput | ios/Pods/leveldb-library/db/version_set.cc:470-495 | the table sinks exactly as long as nothing overlaps at the next level and not too much two levels down, and a flush to that level keeps the invariant |
| PickCompaction.PickedOnce | ios/Pods/leveldb-library/db/version_set.cc:470-495 | only one level is the one PickLevelForMemTableOutput may answer for given files and size limit |
| CompactionWork.Compaction.IsBaseLevelForKey | ios/Pods/leveldb-library/db/version_set.cc:1510-1529 | the cursors that only move forward across calls answer for every key, asked in order, whether a deeper level of the input version has a file around it |
| CompactionWork.ShouldDrop | ios/Pods/leveldb-library/db/db_impl.cc:938-967 | the loop's memory of one previous entry decides exactly the two drop rules over the whole merged input |
| CompactionWork.DoCompactionWork | ios/Pods/leveldb-library/db/db_impl.cc:887-1022 | the outputs hold exactly the surviving entries, in disjoint sorted files, one for each part of the input that lies between the cuts, with the size of its contents, and the k-th file has the number taken when it was opened |
| CompactionWork.Compaction.ShouldStopBefore | ios/Pods/leveldb-library/db/version_set.cc:1531-1552 | the cursor with its running sum says yes exactly when the files two levels down that ended before this key and after the key of the last yes, or the first key asked, are together larger than the limit |
| OutputCuts.CutExactly | ios/Pods/leveldb-library/db/db_impl.cc:928-990 | every kept entry is in exactly one part, in order; a new part begins exactly where the last one was full or an entry since its last one asked for a new file |
| OutputCuts.OverlapBounded | ios/Pods/leveldb-library/db/version_set.cc:1531-1552 | no output file spans more than the limit in files two levels down that end within it |
| CompactionWork.TakenReserved | ios/Pods/leveldb-library/db/db_impl.cc:796-819 | over any piece of a run during a compaction, the numbers its files take as they are opened grow and are set aside for it, whatever is written, flushed or snapshot in between |
| CompactionWork.OutputsOfWork | ios/Pods/leveldb-library/db/db_impl.cc:869-885 | the loop's outputs, numbered amid such a piece of a run, are what the engine's last step of the compaction installs, and that step is possible |
| DbIter.LiveIsRead | ios/Pods/leveldb-library/db/db_iter.cc:177-207 | a key is live at a snapshot exactly when a read there finds a value, and the value is that of the entry a Seek lands on |
| DbIter.DBIter.FindNextUserEntry | ios/Pods/leveldb-library/db/db_iter.cc:177-207 | from any legal position the forward scan stops at the least live key not yet passed, or nowhere when there is none |
| DbIter.DBIter.FindPrevUserEntry | ios/Pods/leveldb-library/db/db_iter.cc:236-276 | the backward scan ends with the greatest live key before the position and its newest visible value in hand |
| DbIter.DBIter.Next | ios/Pods/leveldb-library/db/db_iter.cc:141-175 | goes to the least live key above the current one, also straight after Prev; invalid exactly at the end |
| DbIter.DBIter.Prev | ios/Pods/leveldb-library/db/db_iter.cc:209-234 | goes to the greatest live key below the current one, also straight after Next; invalid exactly at the start |
| DbIter.DBIter.Seek | ios/Pods/leveldb-library/db/db_iter.cc:278-290 | the least live key at or after the target |
| DbIter.DBIter.SeekToFirst | ios/Pods/leveldb-library/db/db_iter.cc:292-301 | the least live key |
| DbIter.DBIter.SeekToLast | ios/Pods/leveldb-library/db/db_iter.cc:303-308 | the greatest live key |
| DbIter.NextIsIndex | ios/Pods/leveldb-library/db/db_iter.cc:141-175 | the key after an element of the sorted list of live keys is the next element |
| DbIter.PrevIsIndex | ios/Pods/leveldb-library/db/db_iter.cc:209-234 | the key before an element of that list is the previous element |
| DbIter.EndsAreIndex | ios/Pods/leveldb-library/db/db_iter.cc:292-308 | the least and greatest live keys are the ends of that list |
| Scan.ChildrenCover | ios/Pods/leveldb-library/db/db_impl.cc:1072-1097 | the iterators of the memtables, of every level-0 file and of every deeper level share no entry and hold everything the database has |
| Scan.ScanIsHistory | ios/Pods/leveldb-library/db/db_impl.cc:1158-1168 | in every state of a safe run, at any live snapshot, at the last sequence number or above, the user iterator over the merging iterator over those lists shows, in order, exactly the keys the write history gives a value, with that value |
| Merger.MergingIterator.FindSmallest | ios/Pods/leveldb-library/table/merger.cc:148-161 | when all children stand at the cut before rank n, the smallest of them is entry n of the union |
| Merger.MergingIterator.FindLargest | ios/Pods/leveldb-library/table/merger.cc:163-176 | the same backwards |
| Merger.MergingIterator.TurnForward | ios/Pods/leveldb-library/table/merger.cc:58-76 | after Prev, every other child is put just past the current entry |
| Merger.MergingIterator.TurnBack | ios/Pods/leveldb-library/table/merger.cc:84-104 | after Next, every other child is put just before the current entry |
| Merger.MergingIterator.Seek | ios/Pods/leveldb-library/table/merger.cc:47-53 | lands on the first entry of the union at or after the key |
| Merger.MergingIterator.Next | ios/Pods/leveldb-library/table/merger.cc:55-79 | moves by one in the sorted union of the children, whichever way the iterator moved before |
| Merger.MergingIterator.Prev | ios/Pods/leveldb-library/table/merger.cc:81-108 | moves back by one in the sorted union, whichever way the iterator moved before |
| Tables.TableBuilder.Add | ios/Pods/leveldb-library/table/table_builder.cc:94-123 | the entry joins the open block, which is closed exactly when it is full; the index entry of the previous block, delayed until the next key is known, separates the two blocks |
| Tables.TableBuilder.Finish | ios/Pods/leveldb-library/table/table_builder.cc:198-253 | the finished table holds exactly the entries added, in the blocks they were added to, with an index that separates its blocks and ends with the successor |
| Tables.BlockSeek | ios/Pods/leveldb-library/table/two_level_iterator.cc:82-87 | seeking in the whole list of entries is seeking in the block the index leads to, or falls on what follows it |
| Tables.InternalGet | ios/Pods/leveldb-library/table/table.cc:214-242 | one block is enough, and a sound filter may spare even that: no entry of the sought user key is missed |
| TwoLevel.TwoLevelIterator.Seek | ios/Pods/leveldb-library/table/two_level_iterator.cc:82-87 | lands on the first entry of the concatenation at or after the key, past any empty blocks |
| TwoLevel.TwoLevelIterator.Next | ios/Pods/leveldb-library/table/two_level_iterator.cc:103-107 | moves by one in the concatenation |
| TwoLevel.TwoLevelIterator.Prev | ios/Pods/leveldb-library/table/two_level_iterator.cc:109-113 | moves back by one in the concatenation |
| TwoLevel.TwoLevelIterator.SkipEmptyDataBlocksForward | ios/Pods/leveldb-library/table/two_level_iterator.cc:115-126 | keeps the position in the concatenation while skipping exhausted blocks |
| TwoLevel.TwoLevelIterator.SkipEmptyDataBlocksBackward | ios/Pods/leveldb-library/table/two_level_iterator.cc:128-139 | steps to the last entry of the nearest earlier non-empty block |
| TwoLevel.LevelIndexOk | ios/Pods/leveldb-library/db/version_set.cc:158-227 | the sorted files of a level can be read through the same two-level iterator |
| Comparator.BytewiseOrder | ios/Pods/leveldb-library/util/comparator.cc:27-29 | byte-wise comparison is a strict total order, as blocks need it |
| Comparator.FindShortestSeparator | ios/Pods/leveldb-library/util/comparator.cc:31-52 | the key stays exactly when no byte lies between the first two that differ, or one key is a prefix of the other; otherwise it becomes the least of the shortest keys strictly between it and the limit |
| Comparator.FindShortSuccessor | ios/Pods/leveldb-library/util/comparator.cc:54-66 | the key stays exactly when all its bytes are 0xff; otherwise it becomes the least of the shortest larger keys |
| Comparator.FindShortestInternalSeparator | ios/Pods/leveldb-library/db/dbformat.cc:65-82 | an internal key at or after the first and before the second; its user key is shortened, to the least of the shortest, exactly when that makes it shorter |
| Comparator.FindShortInternalSuccessor | ios/Pods/leveldb-library/db/dbformat.cc:84-97 | an internal key at or after the given one; its user key is shortened exactly when a byte before the last is not 0xff |
| Block.BlockBuilder.Add | ios/Pods/leveldb-library/table/block_builder.cc:71-105 | the block describes one more item, which shares with the one before it the longest prefix they have in common, or nothing where a restart point is due, and one is due exactly every interval items |
| Block.BlockBuilder.Finish | ios/Pods/leveldb-library/table/block_builder.cc:61-69 | the entries, the restart offsets and their count, in this order |
| Block.DecodeEncoded | ios/Pods/leveldb-library/table/block.cc:55-75 | the three lengths, key suffix and value of an entry read back, on the one-byte fast path and on the slow one |
| Block.Iter.ParseNextKey | ios/Pods/leveldb-library/table/block.cc:225-252 | the key rebuilt from the shared prefix is the key that was added |
| Block.Iter.Next | ios/Pods/leveldb-library/table/block.cc:138-141 | moves to the next item |
| Block.Iter.Prev | ios/Pods/leveldb-library/table/block.cc:143-162 | the restart search and the forward scan together move back by one, and past the start make the iterator invalid |
| Block.Iter.Seek | ios/Pods/leveldb-library/table/block.cc:164-202 | binary search over the restart points and the scan after it land where searching the items one by one does |
| Block.Iter.SeekToFirst | ios/Pods/leveldb-library/table/block.cc:204-207 | the first item, or none in an empty block |
| Block.Iter.SeekToLast | ios/Pods/leveldb-library/table/block.cc:209-214 | the last item, or none in an empty block |
| Bloom.CreateFilter | ios/Pods/leveldb-library/util/bloom.cc:28-54 | the nested loops set exactly the probed bits of every key and append the number of probes |
| Bloom.KeyMayMatch | ios/Pods/leveldb-library/util/bloom.cc:56-80 | says no exactly when the filter is too short or some probed bit of a filter with a known probe count is clear |
| Bloom.MatchesExactly | ios/Pods/leveldb-library/util/bloom.cc:28-80 | a key may match a filter exactly when each of its probes falls on a bit that a probe of some key of the filter falls on |
| Bloom.ProbeIs | ios/Pods/leveldb-library/util/bloom.cc:38-52 | the probes are double hashing: the j-th is the hash and j times its delta, modulo 2^32 |
| Bloom.DeltaRotates | ios/Pods/leveldb-library/util/bloom.cc:44-44 | the delta is the hash rotated right by 17 bits |
| Bloom.NeverDenied | ios/Pods/leveldb-library/util/bloom.cc:28-80 | a key the filter was made of is never denied |
| FilterBlock.Builder.StartBlock | ios/Pods/leveldb-library/table/filter_block.cc:21-27 | after it, a filter exists for every two-kilobyte range before the offset |
| FilterBlock.Builder.AddKey | ios/Pods/leveldb-library/table/filter_block.cc:29-33 | the key is recorded for the current data block's offset |
| FilterBlock.Builder.Finish | ios/Pods/leveldb-library/table/filter_block.cc:35-49 | with a sound policy the reader says "possibly" for every key ever added, at the offset of its block; for any offset and key it says what the policy says of the filter of that two-kilobyte range, and "possibly" past the last one |
| FilterBlock.FoundByReader | ios/Pods/leveldb-library/table/filter_block.cc:90-104 | the offset array leads the reader to the filter that holds the key |
| FilterBlock.AnswersExactly | ios/Pods/leveldb-library/table/filter_block.cc:90-104 | the reader asks the policy about the filter of the block's range and no other |
| FilterBlock.RuledOutBy | ios/Pods/leveldb-library/table/filter_block.cc:90-104 | whatever the contents, no key is ruled out by damage alone, but by an empty entry or by the policy |
| FilterBlock.Reader.MayMatch | ios/Pods/leveldb-library/table/filter_block.cc:77-104 | the reader's test, with damaged contents counting as a possible match |
| FilterBlock.BloomIsSound | ios/Pods/leveldb-library/util/bloom.cc:28-80 | the Bloom filter is such a policy |
| Log.Writer.AddRecord | ios/Pods/leveldb-library/db/log_writer.cc:34-80 | appends the record's fragments, padding the end of a block too short for a header; an empty record gives one empty fragment |
| Log.Reader.ReadPhysicalRecord | ios/Pods/leveldb-library/db/log_reader.cc:189-271 | the buffered reader returns, block by block, the physical record at the file position, with the same reports; what that means on damaged files is in the LogDamage rows |
| Log.Reader.ReadRecord | ios/Pods/leveldb-library/db/log_reader.cc:56-174 | puts fragments together, dropping and reporting unfinished ones, exactly as a reader of positions in the file would |
| Log.LogRoundTrip | ios/Pods/leveldb-library/db/log_writer.cc:34-80 | what was added, empty records and records over many blocks included, is read back, and nothing is reported |
| LogDamage.OnlyWritten | ios/Pods/leveldb-library/db/log_reader.cc:243-257 | with checksums on, whatever the file holds, every record handed out is made of fragments that stand in the file with the checksum of their type and payload, in writing order |
| LogDamage.OneDamagedFragment | ios/Pods/leveldb-library/db/log_reader.cc:189-271 | where one fragment of a log is damaged so that its checksum or its length fails, the rest of its block is reported and dropped, the records with a fragment there are lost and what is left of them reported, and all other records are read |
| LogDamage.ChangedPayload | ios/Pods/leveldb-library/db/log_reader.cc:243-257 | a changed payload byte under an unchanged header loses the record and reports its size |
| LogDamage.UnknownType | ios/Pods/leveldb-library/db/log_reader.cc:162-170 | a fragment of unknown type is reported and passed over |
| LogDamage.ZeroTail | ios/Pods/leveldb-library/db/log_reader.cc:232-240 | zeros at the end of a file hold no records and are not reported |
| LogDamage.TornThenAppended | ios/Pods/leveldb-library/db/log_reader.cc:90-112 | a record of which only the first fragments were written is reported and dropped, and the records appended after it are read |
| LogDamage.ChecksumsOff | ios/Pods/leveldb-library/db/log_reader.cc:243-245 | with checksums off a log reads back whatever its checksums are |
| Log.FewestFragments | ios/Pods/leveldb-library/db/log_writer.cc:34-80 | a record takes as few fragments as its bytes and their headers allow: all but the last fill their blocks |
| Log.CrashTruncation | ios/Pods/leveldb-library/db/log_reader.cc:56-174 | after a cut at any byte exactly the records wholly before the cut are read back, and nothing is reported |
| Log.ContainedIsLargest | ios/Pods/leveldb-library/db/log_reader.cc:56-174 | "wholly before the cut" is the largest number of records whose log fits |
| Log.MaskRoundTrip | ios/Pods/leveldb-library/util/crc32c.h:29-38 | unmasking a masked checksum gives it back |
| Recovery.RecoverLogFile | ios/Pods/leveldb-library/db/db_impl.cc:380-498 | replaying a log, with the memtable written out whenever it is full, leaves every logged entry in level-0 tables younger than all before, and finds the largest sequence number |
| Recovery.WriteLevel0Table | ios/Pods/leveldb-library/db/db_impl.cc:500-542 | the memtable's entries, and no others, join level 0 under a new number; an empty memtable makes no table |
| Recovery.Recover | ios/Pods/leveldb-library/db/db_impl.cc:289-378 | replaying the manifest's logs in order of number gives a version that holds what the manifest named and what the logs held, with new tables only under numbers the manifest had not given out |
| Durability.AppendKeepsInv | ios/Pods/leveldb-library/db/db_impl.cc:1208-1245 | a logged write, before or after it reaches the memtable, keeps the disk complete |
| Durability.RotateKeepsInv | ios/Pods/leveldb-library/db/db_impl.cc:1355-1376 | switching to a new log keeps the disk complete |
| Durability.CommitKeepsInv | ios/Pods/leveldb-library/db/version_set.cc:777-842 | writing the edit to the manifest, before it is installed in memory, keeps the disk complete |
| Durability.InstallKeepsInv | ios/Pods/leveldb-library/db/version_set.cc:844-860 | installing the new version keeps the disk complete |
| Durability.CollectKeepsInv | ios/Pods/leveldb-library/db/db_impl.cc:222-287 | removing obsolete files takes no table of a live version, no output under way, no log the manifest still needs and not the current manifest |
| Durability.CollectsAll | ios/Pods/leveldb-library/db/db_impl.cc:222-287 | removing every file but the live tables, outputs under way, the logs from the installed version's on and the manifests from the current one on is what the removal may do, and it may not do more |
| Crashes.ReplayReady | ios/Pods/leveldb-library/db/db_impl.cc:289-378 | whatever point a crash comes at and wherever it cuts unsynced logs, recovery finds all tables of the manifest and logs in age order |
| Crashes.CanReopen | ios/Pods/leveldb-library/db/db_impl.cc:1478-1517 | what recovery computes gives a disk, made of the one the crash left by adding its tables, a log and a manifest, and a state the database can be opened in |
| Crashes.RecoverySucceeds | ios/Pods/leveldb-library/db/db_impl.cc:289-378 | from every state, after a crash of the process or of the machine and whatever opens that were cut short have left behind, opening the database can be completed, and the invariant holds |
| Crashes.ReopenKeepsInv | ios/Pods/leveldb-library/db/db_impl.cc:289-378 | after a crash of the process or of the machine at any point, cut-short recoveries and a completed one, the invariant holds again (no table the manifest names was written over or lost), and the tables hold exactly the manifest's entries and those read back from the logs |
| Crashes.ProcessCrash | ios/Pods/leveldb-library/db/db_impl.cc:289-378 | after a crash of the process alone contents, history and last sequence number are as if the commit and the write under way had gone through |
| Crashes.LastRecovered | ios/Pods/leveldb-library/db/db_impl.cc:373-375 | after a crash of the process recovery finds exactly the last sequence number given out |
| Crashes.ReopenKeepsReads | ios/Pods/leveldb-library/db/db_impl.cc:289-378 | after a crash of the process reads at the recovered sequence number are as before |
| Crashes.SysInvOverRuns | ios/Pods/leveldb-library/db/db_impl.cc:222-287 | in every state of every run with crashes of the process and of the machine anywhere, every needed file is on disk |
| Crashes.NothingLost | ios/Pods/leveldb-library/db/db_impl.cc:289-378 | whatever was written by any step of a run is, at every later step, process crashes included, still in a memtable or a table, unless a newer entry of its key hides it from every read that may come or it is a deletion they all see |
| CrashView.RefinesMapOverCrashes | ios/Pods/leveldb-library/db/db_impl.cc:289-378 | over every run with crashes of the process at any point the database is the map that the batches logged so far leave, with a copy for each snapshot taken since the last crash |
| CrashView.ReadsBack | ios/Pods/leveldb-library/db/db_impl.cc:1195-1245 | the last operation of a logged batch on a key is what reading the key gives from then on, process crashes included, until a later batch writes the key |
| CrashView.SyncedWriteIsRead | ios/Pods/leveldb-library/db/db_impl.cc:1208-1245 | the last operation on a key of a batch written with sync is what reading the key gives, whatever crashes of the process and of the machine come in between, until a later batch writes the key |
| Stored.NextStores | ios/Pods/leveldb-library/db/db_impl.cc:697-776 | no step of the engine loses an entry that a read may still need, compactions that resurrect a value included |
| Crashes.ReadsOverCrashes | ios/Pods/leveldb-library/db/db_impl.cc:289-378 | reads agree with the write history over safe runs with process crashes |
| MachineCrashes.SyncMakesDurable | ios/Pods/leveldb-library/db/db_impl.cc:1208-1245 | a write acknowledged with sync is durable at once, and so is everything written to the same log before |
| MachineCrashes.DurableForever | ios/Pods/leveldb-library/db/db_impl.cc:289-378 | what is in a table of the current manifest or synced in a log stays, over every run with crashes of both kinds, in the history that counts, and in a memtable or a table unless no read that may come could need it |
| MachineCrashes.ReadsOverAllCrashes | ios/Pods/leveldb-library/db/db_impl.cc:289-378 | over runs with crashes of both kinds, whatever part of the logs each machine crash takes, every state reads like the history that is left, if no compaction is installed that would resurrect a value from the tables alone |
| MachineCrashes.DurableIsRead | ios/Pods/leveldb-library/db/db_impl.cc:289-378 | over such runs a value once durable is what every later read gives that sees it and nothing newer of its key |
| MachineCrashes.DiskSafeIsSafe | ios/Pods/leveldb-library/db/db_impl.cc:916-1009 | what such runs ask of a compaction includes what runs without machine crashes ask |
| Crashes.SyncedSurvives | ios/Pods/leveldb-library/db/db_impl.cc:1208-1245 | after a machine crash recovery reads all tables, every synced write, and nothing that was not written |
| CrashPrefix.NoHolesIff | ios/Pods/leveldb-library/db/db_impl.cc:1355-1376 | however a machine crash cuts the logs, what is read back has no entry newer than a lost one, if and only if the immutable memtable's log is synced to its last entry or no longer needed, or the memtable's log has no entries |
| CrashPrefix.SyncedBringsEarlierIff | ios/Pods/leveldb-library/db/db_impl.cc:1208-1245 | a write to the current log acknowledged as synced brings every earlier write through any machine crash if and only if the immutable memtable's log is synced to its last entry or no longer needed, or nothing in the current log was synced |
| SyncGap.EarlierWriteLost | ios/Pods/leveldb-library/db/db_impl.cc:1355-1376 | a machine crash can lose an earlier unsynced write and keep a later synced one, because switching logs does not sync the old one |
| GroupCommit.BuildBatchGroup | ios/Pods/leveldb-library/db/db_impl.cc:1270-1316 | the group is the longest run of waiting writers that may join, and its batch is theirs in order |
| GroupCommit.GroupLaws | ios/Pods/leveldb-library/db/db_impl.cc:1283-1313 | no sync writer is in a group led by a non-sync one, and the group stays within its size unless it is one batch |
| GroupCommit.GroupBytes | ios/Pods/leveldb-library/db/db_impl.cc:1283-1300 | a group has at most a megabyte unless it is one batch, and a small first write waits for at most 128 KB more |
| GroupCommit.AllFitInOne | ios/Pods/leveldb-library/db/db_impl.cc:1270-1316 | waiting writers that fit together are one group |
| GroupCommit.InvOverRuns | ios/Pods/leveldb-library/db/db_impl.cc:1195-1268 | over any interleaving of writers, turns follow queue order and take consecutive sequence numbers |
| GroupCommit.ExactlyOneTurn | ios/Pods/leveldb-library/db/db_impl.cc:1195-1268 | a writer that is done was a member of exactly one group |
| GroupCommit.RangesDisjoint | ios/Pods/leveldb-library/db/db_impl.cc:1210-1214 | batches take consecutive ranges of sequence numbers in queue order, and no number is used twice |
| GroupCommit.SnapshotSplitsNoBatch | ios/Pods/leveldb-library/db/db_impl.cc:1176-1179 | LastSequence as any reader ever saw it lies wholly before or after every batch |
| GroupCommit.TurnIsWrites | ios/Pods/leveldb-library/db/db_impl.cc:1195-1245 | the one write of a group is its members' writes one after the other |
| ManifestReplay.Builder.Apply | ios/Pods/leveldb-library/db/version_set.cc:629-669 | the builder's sets after an edit are those of the whole edit list, an added file being ignored where the set has its twin (same smallest key and number) |
| ManifestReplay.Builder.SaveTo | ios/Pods/leveldb-library/db/version_set.cc:672-730 | the loops merge base and added files in order, an added one after its twins, and leave out the deleted numbers |
| ManifestReplay.ReplayIsLive | ios/Pods/leveldb-library/db/version_set.cc:900-971 | one replay of the whole history gives the list that live application gives, in strict order, if no file number is added by two edits |
| ManifestReplay.ReplayIsLiveIff | ios/Pods/leveldb-library/db/version_set.cc:629-669 | replay gives the live list after every edit, so whenever the database is opened, if and only if no edit takes the deletion mark off a number that a file of the base has, or an earlier added file it does not add again, and none adds a twin of an earlier added file that is not marked deleted |
| ManifestReplay.ReplayedVersionIsLive | ios/Pods/leveldb-library/db/version_set.cc:900-971 | under that condition the version read back is, list by list, the version that was live |
| ManifestReplay.ApplyEach | ios/Pods/leveldb-library/db/version_set.cc:777-800 | a new builder for every edit gives the live lists of the whole history, whatever the edits |
| ManifestReplay.Replay | ios/Pods/leveldb-library/db/version_set.cc:900-971 | one builder for all edits gives the merge of the base with all added files without the numbers still marked deleted, whatever the edits |
| ManifestReplay.CompactionEditReplaces | ios/Pods/leveldb-library/db/version_set.cc:1502-1508 | the edit of a compaction, whose outputs have numbers of their own, makes of every level what the engine's step does |
| ManifestReplay.FlushEditAdds | ios/Pods/leveldb-library/db/db_impl.cc:527-541 | the edit of a flush only adds |
| ManifestReplay.ReusedNumberReturns | ios/Pods/leveldb-library/db/version_set.cc:640-668 | the condition is needed: a number used twice brings a deleted file back |
| ManifestReplay.TwinVanishes | ios/Pods/leveldb-library/db/version_set.cc:640-668 | the condition is needed: a twin added by a later edit is live but not read back |
| FileSets.SameTwins | ios/Pods/leveldb-library/db/version_set.cc:568-582 | two lists in the builder's order with the same twins of every file are the same list |
| FileSets.TwinsSetInsert | ios/Pods/leveldb-library/db/version_set.cc:640-668 | inserting into the set of added files adds the file unless a twin is there |
| VersionEdit.VersionEdit.EncodeTo | ios/Pods/leveldb-library/db/version_edit.cc:41-84 | the fields that are set, in their fixed order |
| VersionEdit.VersionEdit.DecodeFrom | ios/Pods/leveldb-library/db/version_edit.cc:105-203 | fields in any order until the input is used up; anything else is corruption |
| VersionEdit.DecodeEncoded | ios/Pods/leveldb-library/db/version_edit.cc:26-203 | decoding gives the edit back if and only if the decoder held no compaction pointers, which Clear forgets to forget |
| TornFormats.TornEdit | ios/Pods/leveldb-library/db/version_edit.cc:105-203 | an edit cut within a field is corrupt |
| TornFormats.UnknownField | ios/Pods/leveldb-library/db/version_edit.cc:105-203 | so is one with a tag that has no meaning |
| TornFormats.DecodedInRange | ios/Pods/leveldb-library/db/version_edit.cc:84-103 | whatever bytes are decoded, levels are below seven, no key is empty, and the deleted files are a set in order |
| WriteBatch.WriteBatch.Add | ios/Pods/leveldb-library/db/write_batch.cc:98-109 | Put and Delete append one operation and count it |
| WriteBatch.WriteBatch.Append | ios/Pods/leveldb-library/db/write_batch.cc:144-148 | appending a batch appends its operations and adds the counts |
| WriteBatch.WriteBatch.SetSequence | ios/Pods/leveldb-library/db/write_batch.cc:94-96 | only the number in the header changes; the operations stay as they were |
| WriteBatch.Iterate | ios/Pods/leveldb-library/db/write_batch.cc:42-80 | hands over the operations up to the first malformed record and accepts exactly the batches that are well-formed to their end with as many records as the header says |
| WriteBatch.RecordsBack | ios/Pods/leveldb-library/db/write_batch.cc:42-80 | what was put in a batch is what iterating it gives |
| WriteBatch.InsertInto | ios/Pods/leveldb-library/db/write_batch.cc:115-137 | a batch built by these operations inserts exactly them, under consecutive sequence numbers from its own |
| BatchEntries.InsertEntries | ios/Pods/leveldb-library/db/write_batch.cc:115-137 | the entries made from the bytes of a batch are those the engine's write step adds: for each Put, an empty value included, a value entry, for each Delete a tombstone, under consecutive numbers |
| TornFormats.TornBatch | ios/Pods/leveldb-library/db/write_batch.cc:42-80 | a batch cut anywhere is refused: a record is torn or the count is not met |
| TornFormats.BadRecord | ios/Pods/leveldb-library/db/write_batch.cc:63-72 | a record of no known type ends the batch: what came before it is handed over and the batch is refused |
| SkipList.LinkKeepsInv | ios/Pods/leveldb-library/db/skiplist.h:362-367 | after each single pointer store of an insertion every level is the sorted list of the nodes linked on it, and a sublist of the level below |
| SkipList.ConcurrentSearch | ios/Pods/leveldb-library/db/skiplist.h:260-281 | a search interleaved with the stores of any number of insertions ends at a node at or after the target that skips no key present when the search began |
| SkipList.List.FindGreaterOrEqual | ios/Pods/leveldb-library/db/skiplist.h:260-281 | the first node at or after the key and its predecessors on every level |
| SkipList.List.FindLessThan | ios/Pods/leveldb-library/db/skiplist.h:283-303 | the last node before the key |
| SkipList.List.FindLast | ios/Pods/leveldb-library/db/skiplist.h:304-322 | the last node |
| SkipList.List.Insert | ios/Pods/leveldb-library/db/skiplist.h:336-368 | the keys grow by one, on as many levels as asked, through states every one of which a reader may see |
| SkipList.List.Contains | ios/Pods/leveldb-library/db/skiplist.h:370-378 | whether the key is in the list |
| HandleTable.HandleTable.FindPointer | ios/Pods/leveldb-library/util/cache.cc:112-121 | the slot with the key, or the end of its chain when there is none in the whole table |
| HandleTable.HandleTable.Insert | ios/Pods/leveldb-library/util/cache.cc:79-93 | one slot is added, in place of the one with its key if there is one |
| HandleTable.HandleTable.Remove | ios/Pods/leveldb-library/util/cache.cc:95-103 | the slot with the key is taken out if there is one |
| HandleTable.HandleTable.Resize | ios/Pods/leveldb-library/util/cache.cc:123-147 | the buckets change and the contents do not; no slot is lost or doubled |
| LruCache.LruCache.Insert | ios/Pods/leveldb-library/util/cache.cc:267-304 | the whole new state: the new entry is in, held by its client; the cached entry with its key and hash, if there is one, is out; then the fewest oldest entries nobody holds are evicted that bring usage within capacity, or all of them |
| LruCache.LruCache.Lookup | ios/Pods/leveldb-library/util/cache.cc:253-260 | finds the entry exactly when it is cached, and takes one more reference |
| LruCache.LruCache.Release | ios/Pods/leveldb-library/util/cache.cc:226-238 | gives one reference back: a cached entry that nobody holds any more goes behind all others of the list of idle entries, which keep their order; an entry that nobody and no list holds is freed |
| LruCache.LruCache.Erase | ios/Pods/leveldb-library/util/cache.cc:319-322 | the entry with the key leaves the cache as FinishErase says, and without one nothing changes |
| LruCache.LruCache.Prune | ios/Pods/leveldb-library/util/cache.cc:324-334 | the whole new state: exactly the entries no client holds are dropped and deleted, oldest first |
| LruRuns.OldestReleasedFirst | ios/Pods/leveldb-library/util/cache.cc:292-299 | over any sequence of Insert, Lookup, Release, Erase and Prune: of two entries nobody holds, an insertion evicts first the one whose last reference was given back first, and the other only if that one goes too |
| LruRuns.ListByRelease | ios/Pods/leveldb-library/util/cache.cc:226-238 | the list of idle entries is always in the order in which their last references were given back |
| LruRuns.HeldIsOutside | ios/Pods/leveldb-library/util/cache.cc:218-238 | the reference count of an entry, less the cache's own, is always the number of times it was returned to clients less the number of times it was given back |
| HandleList.Append | ios/Pods/leveldb-library/util/cache.cc:245-251 | four link assignments put the handle at the new end of the circular list |
| HandleList.Remove | ios/Pods/leveldb-library/util/cache.cc:240-243 | two link assignments take the handle out of whichever circular list it is in |
| HandleList.Move | ios/Pods/leveldb-library/util/cache.cc:218-238 | moving a handle from one list to the other changes the two circles as the shard's sequences change |
| HandleList.UnrefLinks | ios/Pods/leveldb-library/util/cache.cc:226-238 | the link surgery of Unref leaves the two circles as the shard's Unref has its sequences, the handle newest in the list of idle ones |
| HandleList.RefLinks | ios/Pods/leveldb-library/util/cache.cc:218-224 | and that of Ref as the shard's Ref does |
| LruCache.RefKeepsInv | ios/Pods/leveldb-library/util/cache.cc:218-224 | taking a reference keeps every cached entry in exactly the list its count asks for |
| LruCache.UnrefKeepsInv | ios/Pods/leveldb-library/util/cache.cc:226-238 | giving one back does too, and a deleter runs exactly once |
| LruCache.FinishEraseKeepsInv | ios/Pods/leveldb-library/util/cache.cc:306-317 | leaving the cache keeps usage the sum of the cached charges |
| Coding.EncodeVarint32 | ios/Pods/leveldb-library/util/coding.cc:21-47 | the five branches write the same bytes as the general form |
| Coding.EncodeVarint64 | ios/Pods/leveldb-library/util/coding.cc:55-64 | seven bits a byte, low bits first |
| Coding.Varint32RoundTrip | ios/Pods/leveldb-library/util/coding.cc:86-114 | a 32-bit value reads back from at most five bytes, whatever follows |
| Coding.Varint64RoundTrip | ios/Pods/leveldb-library/util/coding.cc:116-143 | a 64-bit value reads back from at most ten bytes, whatever follows |
| Coding.NoVarintIff | ios/Pods/leveldb-library/util/coding.cc:86-143 | a varint fails exactly when none of the bytes it may have is its last |
| Coding.PrefixedRoundTrip | ios/Pods/leveldb-library/util/coding.cc:155-164 | a length-prefixed string reads back, with the rest of the input |
| ProtoEncode.OStream.Encode | ios/Pods/nanopb/pb_encode.c:528-550 | the pass over the fields emits exactly the bytes of the wire format, or only counts them, and fails exactly when they do not fit |
| ProtoEncode.OStream.EncodeArray | ios/Pods/nanopb/pb_encode.c:147-236 | packed and unpacked arrays: the size written in front of a packed array is the size of what follows, whether computed from the type or counted first |
| ProtoEncode.OStream.EncodeSubmessage | ios/Pods/nanopb/pb_encode.c:717-765 | at any depth the writing pass emits as many bytes as the sizing pass counted, so the size check never fails |
| ProtoEncode.OStream.WriteVarint | ios/Pods/nanopb/pb_encode.c:608-628 | the buffer filled by the loop is the varint of the value |
| ProtoEncode.GetEncodedSize | ios/Pods/nanopb/pb_encode.c:567-576 | the sizing pass counts exactly the bytes of the encoding |
| ProtoEncode.EncodeToBuffer | ios/Pods/nanopb/pb_encode.c:528-550 | the writing pass fills the buffer with the encoding, and fails exactly when it is too small |
| ProtoRoundTrip.LeftOutIff | ios/Pods/nanopb/pb_encode.c:240-337 | a field is left out of the encoding exactly when it has its default value and is not required, except that a field without has_ flag whose type has required fields or bytes of fixed length is always written |
| ProtoFields.ZigZagRoundTrip | ios/Pods/nanopb/pb_decode.c:1285-1297 | zig-zag numbers read back |
| ProtoFields.SignedRoundTrip | ios/Pods/nanopb/pb_decode.c:1345-1380 | a signed integer of any width survives the 64-bit two's complement form |
| ProtoIter.FieldIter.Next | ios/Pods/nanopb/pb_common.c:29-85 | moves to the next descriptor or wraps to the first, and the required-field counter stays the number of required fields before the position |
| ProtoIter.FieldIter.Seek | ios/Pods/nanopb/pb_common.c:87-104 | finds a field with the tag wherever the search starts, or comes back to where it started when there is none |
| ProtoIter.FieldIter.CountRequired | ios/Pods/nanopb/pb_decode.c:1041-1055 | walking to the end from any position counts all required fields |
| ProtoBitmap.SetSeen | ios/Pods/nanopb/pb_decode.c:1021-1026 | one more index is in the bitmap, and no other bit changes |
| ProtoBitmap.CheckSeen | ios/Pods/nanopb/pb_decode.c:1057-1078 | comparing whole words and a shifted mask says exactly whether every one of the first 64 required fields was seen |
| ProtoReader.IStream.DecodeVarint32 | ios/Pods/nanopb/pb_decode.c:187-252 | the loop with its byte-wide bit counter and sign-extension rule reads what the wire format says |
| ProtoReader.IStream.DecodeVarint | ios/Pods/nanopb/pb_decode.c:255-275 | the loop reads at most ten bytes modulo 2^64 |
| ProtoReader.IStream.SkipField | ios/Pods/nanopb/pb_decode.c:278-331 | skips one field of the given wire type or fails; that exactly the payload is skipped is the next row |
| ProtoConcat.SkipBack | ios/Pods/nanopb/pb_decode.c:318-331 | of a varint all its bytes are skipped, of a 64-bit field eight, of a length-delimited one the length and so many bytes, of a 32-bit field four, whatever comes behind |
| ProtoConcat.UnknownIgnored | ios/Pods/nanopb/pb_decode.c:978-995 | fields with unknown tags change nothing, wherever between whole fields they stand |
| ProtoConcat.DecodeMixed | ios/Pods/nanopb/pb_decode.c:978-995 | an encoding with unknown fields put before, between and behind its fields decodes to the same message |
| ProtoConcat.Concatenated | ios/Pods/nanopb/pb_decode.c:934-1082 | decoding concatenated messages is decoding the second into what the first gave |
| ProtoConcat.TornField | ios/Pods/nanopb/pb_decode.c:934-1082 | whole fields and then one that is cut anywhere are refused |
| ProtoConcat.ZeroEnds | ios/Pods/nanopb/pb_decode.c:305-313 | a zero ends the message, whatever comes behind it |
| ProtoConcat.LastValueWins | ios/Pods/nanopb/pb_decode.c:406-422 | of two occurrences of a field that is neither repeated nor a message the last one counts |
| ProtoConcat.PackedOrNot | ios/Pods/nanopb/pb_decode.c:424-465 | an array of numbers may come packed, item by item, or in any mixture |
| ProtoConcat.PackedOverflow | ios/Pods/nanopb/pb_decode.c:424-465 | more items than the array has room for are an error |
| ProtoConcat.SubmessagesMerge | ios/Pods/nanopb/pb_decode.c:1385-1440 | two occurrences of a submessage are one occurrence of their contents joined |
| ProtoBounds.DecodedInBounds | ios/Pods/nanopb/pb_decode.c:1285-1480 | whatever bytes are decoded: no number is outside its C type, no text or array longer than its room, and of a oneof at most one member is set, at any depth |
| ProtoReader.DecodeStaticField | ios/Pods/nanopb/pb_decode.c:406-483 | one occurrence of a field: replaced, merged, appended, or unpacked, with the other members of its oneof unset |
| ProtoReader.DecodeNoInit | ios/Pods/nanopb/pb_decode.c:934-1082 | stream, iterator, bitmap and nested calls together compute the meaning of the message |
| ProtoReader.DecodeMessage | ios/Pods/nanopb/pb_decode.c:1084-1096 | the same from defaults |
| ProtoRoundTrip.DecodeEncoded | ios/Pods/nanopb/pb_decode.c:1084-1096 | decoding the encoding of any well-formed message, at any depth, gives the message back |
| ProtoRoundTrip.ZeroIsDefault | ios/Pods/nanopb/pb_encode.c:240-337 | what a field without has_ flag leaves out is what the decoder's default puts back |
| ProtoRoundTrip.WideVarint32 | ios/Pods/nanopb/pb_decode.c:187-252 | a number of 33 to 35 bits where a 32-bit varint is expected is refused |
| ProtoRoundTrip.PackedBack | ios/Pods/nanopb/pb_decode.c:424-455 | the payloads of a packed array are unpacked one by one to the same items |
| ProtoRequired.RequiredExactly | ios/Pods/nanopb/pb_decode.c:1021-1078 | from any state of the loop, decoding succeeds exactly when the rest parses and each of the first 64 required fields was or will be read |
| ProtoRequired.DecodesExactly | ios/Pods/nanopb/pb_decode.c:934-1082 | decoding succeeds if and only if every key and field parses and none of the first 64 required fields is absent |
| ByteExamples.Varints | ios/Pods/leveldb-library/util/coding.cc:21-64 | varints, fixed integers and a length-prefixed string, byte for byte |
| ByteExamples.Batch | ios/Pods/leveldb-library/db/write_batch.cc:5-14 | the bytes of a batch of a Put and a Delete |
| ByteExamples.LogRecord | ios/Pods/leveldb-library/db/log_writer.cc:82-108 | the bytes of a log record under a given checksum |
| ByteExamples.FragmentTypes | ios/Pods/leveldb-library/db/log_format.h:14-33 | the type byte of each kind of fragment, and the zeros that end a block too short for a header |
| ByteExamples.BlockEntries | ios/Pods/leveldb-library/table/block_builder.cc:5-27 | the bytes of block entries, with a shared prefix, and of the restart array |
| ByteExamples.Filters | ios/Pods/leveldb-library/table/filter_block.cc:51-75 | the bytes of a filter block |
| ByteExamples.OneBit | ios/Pods/leveldb-library/util/bloom.cc:28-54 | the bytes of a Bloom filter |
| ByteExamples.Edit | ios/Pods/leveldb-library/db/version_edit.cc:41-84 | the bytes of a version edit with every kind of field |
| ByteExamples.NumberAndText | ios/Pods/nanopb/pb_encode.c:608-700 | the bytes of a number and of a text |
| ByteExamples.SignedAndFixed | ios/Pods/nanopb/pb_encode.c:630-660 | the bytes of a zig-zag number and of a fixed one |
| ByteExamples.WholeMessage | ios/Pods/nanopb/pb_encode.c:476-526 | the bytes of a message: a zero left out, a fixed 64-bit number, a packed array |

## Left out

- I/O errors other than a crash, corrupted tables and keys, `repair.cc`, and opening with `reuse_logs`.
- Compression, encryption, and the byte layout of block handles, footers and block trailers.
- The tables of the checksum and the hash functions: both are arbitrary functions here.
- `initial_offset` of the log reader is 0, as every caller in the engine has it.
- Seek statistics, read sampling and compaction scores: which file asks for a compaction is a parameter of `PickCompaction.Pick`.
- When an output file is full is a parameter of `CompactionWork.DoCompactionWork`, as the size of a built table is not modelled.
- The compaction pointer that `SetupOtherInputs` stores; where a pointer is read it is a parameter of `PickCompaction.Pick`.
- The shards of the cache; one shard is modelled. Its two intrusive lists are sequences of handle numbers there, and `HandleList` proves the link surgery behind them; the hash chains of `HandleTable` are sequences, without their `next_hash` links.
- The weak memory order of the skip list's atomics: stores and loads are interleaved, each taking effect at once.
- The arena, the byte layout of memtable entries and `LookupKey`, and the linked ring of `SnapshotList`, which would only add easy members; the memtable is the set of its entries and the snapshots a list, oldest first.
- In `Durability` a log is a list of records and a manifest is the version it describes; `Log`, `WriteBatch`, `VersionEdit` and `ManifestReplay` cover the bytes and the edits.
- Tables.InternalGet: the filter is an arbitrary test that never denies a key of its block; `FilterBlock` and `Bloom` prove that theirs is one, and the entries of a table stand for its key and value bytes, which `Block` covers.
- Block.Iter.ParseNextKey: blocks are ones that were built, below 4 GB; damaged blocks are not modelled, nor is the wrap-around of the sum of two 32-bit lengths in a damaged entry.
- Database.FlushKeepsInv: a flush that lands among the entries a running compaction keeps is not a step, because there the property is false.
- ReadsOverRuns.ReadsOverRuns: runs in which a compaction drops a tombstone of a split key are excluded, because there the property is false.
- ManifestReplay.ReplayIsLive: compaction pointers and the numbers in an edit are not part of the level contents compared; debug assertions about overlapping files are not modelled.
- Scan.ScanIsHistory: a table stands for the list of its entries; that `Block`, `Tables` and `TwoLevel` read back the bytes that `BlockBuilder` and `TableBuilder` wrote is proved layer by layer, not as one statement, because the engine's user keys are integers and the blocks' are bytes.
- Database.NextKeepsInv: see Database.FlushKeepsInv.
- nanopb callbacks, extensions, `malloc` allocation and pointer fields, fixed-count arrays, and default values other than zero.
- ProtoReader.IStream.DecodeVarint32: the value bits are added where the code combines them with "or", which agrees as long as the byte-wide bit counter has not wrapped, that is for varints of at most 36 bytes.
- ProtoReader.DecodeNoInit: what a failed decode leaves in the destination struct is not modelled; the key and length sizes are those of a build with 32-bit tags.
- ProtoRoundTrip.DecodeEncoded: strings have no zero byte inside and room for the one after them, as the C representation demands, and every length fits the 32-bit length prefix that the decoder reads.
- Tables.TableBuilder.Add: block handles and the calls to the filter block are not modelled; the filter block has its own module.
- Tables.TableBuilder.Finish: the filter and metaindex blocks and the footer of the file are not modelled, nor is their layout.
- Log.Reader.ReadPhysicalRecord: `initial_offset` is 0, so records are not skipped up to it.
- Log.Reader.ReadRecord: `initial_offset` is 0, so there is no resynchronizing in the middle of a record.
- Recovery.RecoverLogFile: records shorter than a batch header, damaged batches and `reuse_logs` are not modelled; `Log` and `WriteBatch` have the reports about damaged bytes.
- Recovery.Recover: reading the manifest is in `ManifestReplay`; the check for missing tables is not part of the method, because `Crashes.ReplayReady` proves that it never fails.
- ManifestReplay.Builder.Apply: compaction pointers in an edit are not applied.
- ProtoEncode.OStream.Encode: callbacks, extensions and pointer fields are not modelled.
- ProtoIter.FieldIter.Next: the pointers to a field's data and size are not modelled; values are found by the field's index.
