# LevelDB and nanopb, modelled and proved in Dafny

The FantasyIQ app carries two libraries in source form whose correctness its data rests on: LevelDB, a
log-structured merge tree, and nanopb, a Protocol Buffers encoder and decoder. This project models both and proves
what they promise. `dafny verify dfyconfig.toml` checks all of it.

What a database means is one function, `DbFormat.Visible(entries, key, snapshot)`: the newest entry of the key at or
below the snapshot, a deletion marker meaning that the key is absent. Lookups, iterators, flushes, compactions,
recovery and whole runs are all stated against it.

The parts, from the outside in:

- **The database as a state machine** (`Store`, `StoreWrites`, `StoreFiles`, `StoreSteps`, `StoreSweeps`,
  `StoreRecovery`, `StoreRuns`). A state is the disk (manifest, logs, tables), the two memtables, the levels, held snapshots and
  pinned versions. The steps are write, rotation of the memtable, flush, trivial move, compaction, collection of
  obsolete files, snapshots and iterators coming and going, an orphaned table of a failed job, and a crash with
  recovery. A run is any sequence of them from a new database.
- **Group commit** (`GroupCommit`, `GroupLogs`, `WriteBatches`): the writer queue as a protocol of steps of any number
  of threads, with the log they write to.
- **Compaction** (`Inputs`, `CompactionWork`, `Elision`, `CompactionSteps`, `LsmSteps`, `Counterexample`): which files
  are chosen, what the loop drops, what readers notice, and the shape of the tree.
- **Lookup and the manifest** (`Version`, `VersionEdits`, `EditCodec`).
- **Iterators** (`Cursors`, `DbIter`, `Merger`, `TwoLevel`): each is proved to be a plain cursor on a sequence that
  is defined on its own, under any legal mix of moves and changes of direction.
- **Structures in memory** (`SkipLists`, `MemTables`, `Rings`, `HandleTables`, `LruCaches`, `SnapshotLists`).
- **Files** (`Tables`, `Blocks`, `BlockFormat`, `FilterBlock`, `Bloom`, `Bytewise`, `Streams`, `LogFormat`,
  `LogFiles`, `LogIntegrity`, `Coding`).
- **nanopb** (`PbWire`, `PbMessages`, `PbEncoders`, `PbDecoders`, `PbFieldIters`, `PbNorms`, `PbMerges`,
  `PbRoundTrips`, `PbRequireds`, `PbAnyBytes`, `PbSilents`), in the wire format of the Protocol Buffers "Encoding" guide, sections "Base 128 Varints", "More Integer Types",
  "Length-Delimited Records" and "Packed Repeated Fields".

Where the source mutates objects, the model is a class with the same fields and methods, proved against functions on
values; the properties of those functions are lemmas. Steps of the database and of the writer queue are relations
between states.

## Findings

Two properties one would expect are false of the code. Each is kept as it is, with an input that shows it and the
exact condition under which the code does what one expects.

- **A compaction can bring a deleted key back.** `SetupOtherInputs` looks for boundary files of the first input list
  only (db/version_set.cc:1407). If the versions of a user key are split over two files of the next level, the inputs
  can take the newer file and leave the older one, and a deletion marker that `IsBaseLevelForKey` clears is dropped
  while the older file still holds a value. `Counterexample.DeletedKeyComesBack` is such a version and choice.
  `Elision.CompactionKeepsReads`, `CompactionSteps.CompactionStep`, `StoreRuns.StepRefines` and
  `StoreRuns.RunRefinesExactly` say exactly when reads are kept: if and only if no dropped marker hides a value
  outside the inputs. A condition on files alone that rules this out is `CompactionSteps.SecondListEndsCleanly`, the
  check that would be made if the second list were treated like the first. The shape of the tree and durability do
  not depend on it: `StoreRuns.RunKeepsInv` and `StoreRuns.CrashLosesNothing` hold of every run.
- **A text that fills its array is encoded but does not decode.** `pb_enc_string` accepts a text without a terminator
  (pb_encode.c:848-852), `pb_dec_string` wants room for one (pb_decode.c:1436-1456). `PbRoundTrips.RoundTrip` has the
  exact condition for whole messages: decoding gives the message back if and only if every text that was written is
  shorter than its array; otherwise it fails.

Smaller observations, where code and documentation differ or a branch is dead; the model follows the code.

- The class comment of DBIter (db/db_iter.cc:41-45) says that going backward the inner iterator stands just before
  all entries of the key shown; entries newer than the snapshot may lie between. The early return of `Next` after a
  change of direction is never taken.
- `MergingIterator::Next` has a branch for a child that holds the sought key (table/merger.cc:68-71); with distinct
  keys it is never taken.
- The log reader takes stored record types 5 and 6 for its own end-of-file and bad-record values
  (db/log_reader.h:63-73).
- `DBImpl::Write` moves the last sequence number on even when writing the log fails (db/db_impl.cc:1219-1236).
- `VersionEdit::Clear` does not clear the compaction pointers, so decoding adds to those of an edit that is reused.
- In an empty message descriptor the tag 0 is "found" (the terminator's), and decoding fails.

## Model

| member | source | states |
|---|---|---|
| Version.FindFile | FantasyIQ/Pods/leveldb-library/db/version_set.cc:88-106 | the binary search returns the first file whose largest key is at or past the target: every earlier file ends before it, every later one does not (sorted, disjoint files) |
| Version.SomeFileOverlapsRange | FantasyIQ/Pods/leveldb-library/db/version_set.cc:122-157 | true exactly when some file of the level overlaps the range, for both the scan of level 0 and the one-file probe of sorted levels; either bound may be open |
| Version.Get | FantasyIQ/Pods/leveldb-library/db/version_set.cc:326-421 | under the LSM invariant alone, newest-first level 0 and one probed file per deeper level give exactly what the newest version at or below the snapshot says over all entries of all files |
| MemTables.MemTable.Add | FantasyIQ/Pods/leveldb-library/db/memtable.cc:75-98 | the entry joins the contents, all others stay |
| MemTables.MemTable.Get | FantasyIQ/Pods/leveldb-library/db/memtable.cc:100-134 | a hit is the newest version at or below the snapshot; no answer means there is none |
| MemTables.Get | FantasyIQ/Pods/leveldb-library/db/db_impl.cc:1100-1135 | memtable, then immutable memtable, then files give what the union of all entries says, when each layer is newer than the next and versions are unique |
| Inputs.GetOverlappingInputs | FantasyIQ/Pods/leveldb-library/db/version_set.cc:519-559 | terminates in spite of its restarts; at level 0 the result is exactly the files overlapping the least range that contains the asked one and is closed under overlap; deeper, exactly the files overlapping the asked range |
| Inputs.FindLargestKey | FantasyIQ/Pods/leveldb-library/db/version_set.cc:1326-1340 | a key that is some file's largest and at or past every other; nothing for no files |
| Inputs.FindSmallestBoundaryFile | FantasyIQ/Pods/leveldb-library/db/version_set.cc:1344-1362 | the boundary file with the smallest start, or none exactly when there is none |
| Inputs.AddBoundaryInputs | FantasyIQ/Pods/leveldb-library/db/version_set.cc:1378-1401 | adds one next boundary file after another, each from the level and none already taken, and leaves no boundary file behind |
| Inputs.ExpandInputs | FantasyIQ/Pods/leveldb-library/db/version_set.cc:1418-1448 | the first list grows to all files in the range of both, exactly when that adds files, stays under the size limit and brings no further file of the next level in; otherwise nothing changes; the second list never does |
| Inputs.SetupOtherInputs | FantasyIQ/Pods/leveldb-library/db/version_set.cc:1403-1462 | from any legal pick: the pick with its boundary files, then the files of the next level that meet them, then exactly the growth allowed; the grandparents are the files two levels down that meet any of it |
| Inputs.PickCompaction | FantasyIQ/Pods/leveldb-library/db/version_set.cc:1270-1322 | whatever file the heuristics name, the inputs are set up from it: at level 0 from all files of the least closed range around it, deeper from it alone |
| Inputs.CompactRange | FantasyIQ/Pods/leveldb-library/db/version_set.cc:1464-1495 | nothing to do exactly when no file of the level overlaps the range; otherwise set up from just what was asked for: at level 0 the files of the least closed range, deeper the overlapping files up to the first at which their sizes reach the limit |
| Inputs.TotalOfParts | FantasyIQ/Pods/leveldb-library/db/version_set.cc:60-66 | the bytes of a list of files: every file counts once, wherever it stands |
| CompactionWork.Compaction.IsBaseLevelForKey | FantasyIQ/Pods/leveldb-library/db/version_set.cc:1533-1552 | the cursors that only move forward answer, for keys asked in order, exactly whether no deeper level can hold the key |
| CompactionWork.DoCompactionWork | FantasyIQ/Pods/leveldb-library/db/db_impl.cc:878-999 | the outputs, cut anywhere, hold exactly the entries that the two drop rules keep, in order, in files numbered upward |
| Elision.CompactionKeepsReads | FantasyIQ/Pods/leveldb-library/db/db_impl.cc:948-976 | over any other entries whatever: every read at or above the smallest snapshot is kept if and only if no deletion marker is dropped while an entry outside the inputs still holds a value it hides |
| CompactionSteps.CompactionStep | FantasyIQ/Pods/leveldb-library/db/db_impl.cc:860-1036 | install what the loop wrote: the LSM invariant holds unconditionally; reads at or above the smallest snapshot are kept exactly when nothing resurfaces, and otherwise a read at the smallest snapshot itself changes |
| CompactionSteps.CleanEndKeepsReads | FantasyIQ/Pods/leveldb-library/db/version_set.cc:1403-1413 | a condition on files alone that suffices: no next-level file goes on with the user key in which the second input list ends |
| Counterexample.DeletedKeyComesBack | FantasyIQ/Pods/leveldb-library/db/version_set.cc:1403-1413 | a version in good shape and a legal choice of inputs, without that condition, where a deleted key reads as a value after the compaction |
| LsmSteps.CompactionKeepsLsm | FantasyIQ/Pods/leveldb-library/db/version_set.cc:1403-1462 | replacing legally chosen inputs by outputs made of their entries keeps levels sorted and disjoint and newer versions above older ones; no condition on dropped entries |
| LsmSteps.PickLevelForMemTableOutput | FantasyIQ/Pods/leveldb-library/db/version_set.cc:491-516 | the deepest level the rules allow: it stops at level 2, at a level that overlaps the table, or above one whose next has more than the limit of bytes overlapping it, and for no other reason |
| LsmSteps.FlushKeepsLsm | FantasyIQ/Pods/leveldb-library/db/version_set.cc:491-516 | a table of entries newer than all others, placed there, keeps the LSM invariant and adds just its entries |
| VersionEdits.Builder.Apply | FantasyIQ/Pods/leveldb-library/db/version_set.cc:650-692 | one edit, seen level by level: deletions first, then each new file, undoing a deletion of its number |
| VersionEdits.SaveLevel | FantasyIQ/Pods/leveldb-library/db/version_set.cc:695-754 | the merge of two sorted lists that skips deleted numbers gives the same list as inserting one by one and filtering |
| VersionEdits.Builder.SaveTo | FantasyIQ/Pods/leveldb-library/db/version_set.cc:695-739 | every level is saved so |
| VersionEdits.LogAndApply | FantasyIQ/Pods/leveldb-library/db/version_set.cc:801-825 | a Builder over the current version makes the next one, provided the edit adds no number its level holds |
| VersionEdits.ReplayAgrees | FantasyIQ/Pods/leveldb-library/db/version_set.cc:924-992 | for any list of edits in which no edit adds to a level a number it has held: one Builder for all gives at every level the same list as one Builder per edit |
| VersionEdits.Recover | FantasyIQ/Pods/leveldb-library/db/version_set.cc:924-1000 | the replay of a manifest with one Builder arrives at the files LogAndApply arrived at edit by edit, under the same proviso |
| EditCodec.VersionEdit.EncodeTo | FantasyIQ/Pods/leveldb-library/db/version_edit.cc:41-85 | appends the tagged items in the fixed order of fields, deleted files in set order |
| EditCodec.VersionEdit.DecodeFrom | FantasyIQ/Pods/leveldb-library/db/version_edit.cc:107-205 | for any bytes: the fields taken from the items before the first error, and the message of that error |
| EditCodec.RoundTrip | FantasyIQ/Pods/leveldb-library/db/version_edit.cc:41-205 | for any edit within the field widths: decoding its bytes gives it back without error, after the compaction pointers the target already had; exactly the edit if and only if it had none (Clear does not clear them) |
| StoreWrites.WriteRefines | FantasyIQ/Pods/leveldb-library/db/db_impl.cc:1185-1256 | a batch written to log and memtable changes readers' map as the operations in order do, and no held snapshot |
| StoreSteps.FlushKeepsInv | FantasyIQ/Pods/leveldb-library/db/db_impl.cc:491-566 | turning the immutable memtable into a table, at any legal level, keeps the invariant and every entry |
| StoreSteps.MoveKeepsInv | FantasyIQ/Pods/leveldb-library/db/db_impl.cc:718-744 | a trivial move keeps the invariant and every entry |
| StoreSteps.CompactKeepsInv | FantasyIQ/Pods/leveldb-library/db/db_impl.cc:860-1036 | every legal compaction keeps the invariant, quiet or not |
| StoreSteps.SweepKeepsInv | FantasyIQ/Pods/leveldb-library/db/db_impl.cc:223-278 | collecting obsolete files keeps the invariant: it deletes no table of the current or a pinned version and no log with unflushed writes |
| StoreSweeps.SweepDeletesExactly | FantasyIQ/Pods/leveldb-library/db/db_impl.cc:223-278 | a table stays on disk if and only if a file of the current or of a pinned version has its number, a log if and only if its number is not below that of the version; what stays is unchanged |
| StoreSweeps.CompactedInputsGo | FantasyIQ/Pods/leveldb-library/db/db_impl.cc:860-876 | after a compaction is installed and files are collected, the tables it read are gone unless a held version names them |
| StoreSweeps.FlushedLogsGo | FantasyIQ/Pods/leveldb-library/db/db_impl.cc:535-566 | after a flush and a collection the log being written is the only one left |
| StoreFiles.DescribesGrows | FantasyIQ/Pods/leveldb-library/db/version_set.cc:801-884 | an installed edit appended to the manifest leaves a manifest that describes the new version |
| StoreRecovery.AlwaysDurable | FantasyIQ/Pods/leveldb-library/db/db_impl.cc:223-278 | in every state with the invariant, the files on disk alone describe all acknowledged writes |
| StoreRecovery.RecoveryRestores | FantasyIQ/Pods/leveldb-library/db/db_impl.cc:280-489 | whatever the disk describes, opening it (replayed manifest, live logs made into tables in order and cut anywhere) brings back exactly those entries and the last sequence number, and the invariant |
| StoreRuns.StepKeepsInv | FantasyIQ/Pods/leveldb-library/db/db_impl.cc:1185-1370 | every step of every kind (write, rotate, flush, move, compact, sweep, hold and release snapshots, pin and unpin versions, orphan tables, crash and recovery) keeps the invariant |
| StoreRuns.StepRefines | FantasyIQ/Pods/leveldb-library/db/db_impl.cc:905-999 | readers see the step of the map if and only if the step is quiet: it is not a compaction that lets a deleted value resurface |
| StoreRuns.RunKeepsInv | FantasyIQ/Pods/leveldb-library/db/db_impl.cc:1474-1514 | every state of every run from a new database keeps the invariant; no guard on compactions |
| StoreRuns.RunRefines | FantasyIQ/Pods/leveldb-library/db/db_impl.cc:1100-1256 | up to any point before which all compactions were quiet, the newest snapshot reads as the map of all writes and every held snapshot as the map at its time |
| StoreRuns.RunRefinesExactly | FantasyIQ/Pods/leveldb-library/db/db_impl.cc:905-999 | a run reads as that map at every point if and only if each of its compactions is quiet |
| StoreRuns.CleanStepIsQuiet | FantasyIQ/Pods/leveldb-library/db/version_set.cc:1403-1413 | compactions whose second input list ends cleanly are quiet |
| StoreRuns.CrashLosesNothing | FantasyIQ/Pods/leveldb-library/db/db_impl.cc:280-489 | after any run and a crash at any step, recovery brings back every entry there was; no guard on compactions |
| StoreRuns.NoWriteIsLost | FantasyIQ/Pods/leveldb-library/db/db_impl.cc:280-489 | if all compactions were quiet, every key then reads as all acknowledged writes in order leave it |
| GroupCommit.BuildBatchGroup | FantasyIQ/Pods/leveldb-library/db/db_impl.cc:1260-1306 | the group is the longest prefix of the queue the rules allow and its batch their concatenation: no sync write under a leader without sync, no more bytes than the leader allows, and an end only where the queue ends or the next would break one of these |
| GroupCommit.StepKeeps | FantasyIQ/Pods/leveldb-library/db/db_impl.cc:1185-1256 | every step of every writer thread (log switches, appends, syncs and their failures included) keeps the invariant of the queue |
| GroupCommit.RunKeeps | FantasyIQ/Pods/leveldb-library/db/db_impl.cc:1185-1256 | and so does every run of any number of threads in any schedule |
| GroupCommit.AppliedExactlyOnce | FantasyIQ/Pods/leveldb-library/db/db_impl.cc:1216-1250 | a batch reported OK is in the history once, and its operations are in the memtable under its own sequence numbers |
| GroupCommit.AppliedInOrder | FantasyIQ/Pods/leveldb-library/db/db_impl.cc:1200-1240 | batches are applied in queue order on disjoint, increasing stretches of sequence numbers |
| GroupCommit.ReadersSeeWholeBatches | FantasyIQ/Pods/leveldb-library/db/db_impl.cc:1219-1236 | a read at LastSequence sees all of every published batch and nothing of one being written |
| GroupCommit.NobodyIsForgotten | FantasyIQ/Pods/leveldb-library/db/db_impl.cc:1238-1256 | while anyone waits, the front of the queue is running or has been signalled |
| GroupLogs.StepKeepsLog | FantasyIQ/Pods/leveldb-library/db/db_impl.cc:1206-1236 | every step keeps what ties log and memtable together: the record of the group being written is the last of the log before anything of it is inserted, and synced if a member asked for that |
| GroupLogs.SyncedBeforeReported | FantasyIQ/Pods/leveldb-library/db/db_impl.cc:1206-1285 | over every run: a write with sync that was reported OK stands, operations and sequence numbers, in a record of the log that was synced |
| GroupLogs.LogReplays | FantasyIQ/Pods/leveldb-library/db/db_impl.cc:1206-1236 | over every run: what readers see is what replaying the log gives, without the record of the group being written and one whose sync failed; records follow each other in sequence numbers |
| GroupLogs.LoggedBeforeInserted | FantasyIQ/Pods/leveldb-library/db/db_impl.cc:1208-1222 | every entry in the memtable since the database was opened is in the log |
| GroupLogs.BrokenForGood | FantasyIQ/Pods/leveldb-library/db/db_impl.cc:1224-1230 | after a failed sync nothing is logged, committed or inserted any more, and every thread that leaves the queue is told that its write failed |
| WriteBatches.RoundTrip | FantasyIQ/Pods/leveldb-library/db/write_batch.cc:42-80 | iterating over the bytes of a batch gives its operations in order, without error, and its sequence number |
| WriteBatches.WriteBatch.Put | FantasyIQ/Pods/leveldb-library/db/write_batch.cc:98-104 | patches the count and appends one record |
| WriteBatches.WriteBatch.Append | FantasyIQ/Pods/leveldb-library/db/write_batch.cc:144-149 | the other batch's operations follow this one's |
| WriteBatches.WriteBatch.Iterate | FantasyIQ/Pods/leveldb-library/db/write_batch.cc:42-80 | for any bytes: the operations before the first error, and which error, a wrong count included |
| WriteBatches.WriteBatch.InsertInto | FantasyIQ/Pods/leveldb-library/db/write_batch.cc:115-137 | each operation once, in order, with consecutive sequence numbers from that of the batch |
| SnapshotLists.SnapshotList.New | FantasyIQ/Pods/leveldb-library/db/snapshot.h:56-70 | goes to the newest end of the circular list |
| SnapshotLists.SnapshotList.Delete | FantasyIQ/Pods/leveldb-library/db/snapshot.h:72-86 | the others stay, in order |
| SnapshotLists.SnapshotList.Oldest | FantasyIQ/Pods/leveldb-library/db/snapshot.h:47-50 | nobody holds a smaller sequence number |
| DbIter.ViewIsVisible | FantasyIQ/Pods/leveldb-library/db/db_iter.cc:41-45 | the sorted map the iterator is to show is exactly what lookups at its sequence number answer |
| DbIter.DBIter.Next | FantasyIQ/Pods/leveldb-library/db/db_iter.cc:141-198 | one on in that map, from either direction |
| DbIter.DBIter.Prev | FantasyIQ/Pods/leveldb-library/db/db_iter.cc:200-267 | one back, from either direction |
| DbIter.DBIter.Seek | FantasyIQ/Pods/leveldb-library/db/db_iter.cc:269-281 | to the first key at or past the target |
| DbIter.DBIter.SeekToFirst | FantasyIQ/Pods/leveldb-library/db/db_iter.cc:283-292 | to the first entry of the map |
| DbIter.DBIter.SeekToLast | FantasyIQ/Pods/leveldb-library/db/db_iter.cc:294-299 | to the last entry of the map |
| Merger.MergingIterator.Next | FantasyIQ/Pods/leveldb-library/table/merger.cc:55-79 | one on in the sorted union of the children, from either direction (children sorted, no key twice) |
| Merger.MergingIterator.Prev | FantasyIQ/Pods/leveldb-library/table/merger.cc:81-108 | one back in the union, from either direction |
| Merger.MergingIterator.Seek | FantasyIQ/Pods/leveldb-library/table/merger.cc:47-53 | to the first entry of the union at or past the target |
| Merger.MergingIterator.constructor | FantasyIQ/Pods/leveldb-library/table/merger.cc:16-25 | the union is the merge of all children |
| TwoLevel.TwoLevelIterator.Next | FantasyIQ/Pods/leveldb-library/table/two_level_iterator.cc:103-126 | one on in the concatenation of all blocks, over any number of empty ones |
| TwoLevel.TwoLevelIterator.Prev | FantasyIQ/Pods/leveldb-library/table/two_level_iterator.cc:109-139 | one back in the concatenation, over any number of empty blocks |
| TwoLevel.TwoLevelIterator.Seek | FantasyIQ/Pods/leveldb-library/table/two_level_iterator.cc:82-87 | to the first entry at or past the target, when each index key closes off its block |
| SkipLists.ConcurrentSearch | FantasyIQ/Pods/leveldb-library/db/skiplist.h:260-322 | a search that overlaps an insertion in any way (steps at any moments of its link loop, after max_height_ is raised included) splits exactly the nodes linked at level 0 when it makes its last read |
| SkipLists.ReaderSafe | FantasyIQ/Pods/leveldb-library/db/skiplist.h:260-322 | such a reader never follows a link that does not exist |
| SkipLists.SkipList.Insert | FantasyIQ/Pods/leveldb-library/db/skiplist.h:336-368 | for any height: the entry is added at the levels below it, every level stays a sorted part of the one below, and every moment on the way is one the readers' theorem covers |
| SkipLists.SkipList.FindGreaterOrEqual | FantasyIQ/Pods/leveldb-library/db/skiplist.h:260-282 | the first node at or past the key, and its predecessors on every level |
| SkipLists.SkipList.FindLessThan | FantasyIQ/Pods/leveldb-library/db/skiplist.h:284-303 | the last node before the key |
| SkipLists.SkipList.FindLast | FantasyIQ/Pods/leveldb-library/db/skiplist.h:304-322 | the last node |
| SkipLists.SkipList.Contains | FantasyIQ/Pods/leveldb-library/db/skiplist.h:370-379 | whether an entry with the key has been inserted |
| Tables.UserComparator.FindShortestSeparator | FantasyIQ/Pods/leveldb-library/db/dbformat.cc:69-84 | for any user comparator that keeps its contract: at or after start and before limit |
| Tables.TableBuilder.Add | FantasyIQ/Pods/leveldb-library/table/table_builder.cc:94-123 | adds just the entry and keeps index, blocks and filter consistent |
| Tables.TableBuilder.Finish | FantasyIQ/Pods/leveldb-library/table/table_builder.cc:198-253 | the file holds just what was added, its index separates the blocks, and its filter knows every key |
| Tables.InternalGet | FantasyIQ/Pods/leveldb-library/table/table.cc:216-244 | reading one block (or none, when the filter says so) gives the newest version at or below the snapshot in the whole table, or shows there is none |
| Bytewise.FindShortestSeparator | FantasyIQ/Pods/leveldb-library/util/comparator.cc:29-50 | in [start, limit), no longer than start, and changed exactly when the first different byte leaves room |
| Bytewise.FindShortSuccessor | FantasyIQ/Pods/leveldb-library/util/comparator.cc:52-63 | at or after the key |
| Bytewise.RankKeepsOrder | FantasyIQ/Pods/leveldb-library/util/comparator.cc:25-27 | byte strings under this comparator embed into the reals, order and all |
| FilterBlock.FilterBlockBuilder.Finish | FantasyIQ/Pods/leveldb-library/table/filter_block.cc:21-75 | after any legal sequence of StartBlock and AddKey: for every key and every offset with a filter, the block answers exactly what the keys added in that 2 KiB of the file make of it, nothing matching where none was added; every key added has a filter and matches it |
| FilterBlock.FilterBlockReader.KeyMayMatch | FantasyIQ/Pods/leveldb-library/table/filter_block.cc:77-104 | the probe of the filter consulted for the offset, and true on malformed ranges |
| Bloom.NoFalseNegative | FantasyIQ/Pods/leveldb-library/util/bloom.cc:28-80 | a filter made for some keys, with wrapping 32-bit double hashing, matches each of them |
| Bloom.MatchesExactly | FantasyIQ/Pods/leveldb-library/util/bloom.cc:28-80 | just the keys all of whose probes are probes of keys of the filter match it |
| Bloom.EmptyMatchesNothing | FantasyIQ/Pods/leveldb-library/util/bloom.cc:28-80 | a filter of no keys matches nothing |
| Bloom.BloomFilterPolicy.CreateFilter | FantasyIQ/Pods/leveldb-library/util/bloom.cc:28-54 | appends a filter in which exactly the bits probed by some key are set, of as many bytes as hold the bits asked for, 64 at least |
| Bloom.BloomFilterPolicy.KeyMayMatch | FantasyIQ/Pods/leveldb-library/util/bloom.cc:56-80 | reads it back, the reserved and short cases included |
| Blocks.BlockBuilder.Add | FantasyIQ/Pods/leveldb-library/table/block_builder.cc:72-106 | for any keys and any restart interval of at least 1: one prefix-compressed cell, restart points where they are due |
| Blocks.BlockBuilder.Finish | FantasyIQ/Pods/leveldb-library/table/block_builder.cc:62-70 | a block of the pairs added, with a restart point after every `interval` of them and no others; every other key leaves out all it shares with the one before |
| Blocks.OpenBlock | FantasyIQ/Pods/leveldb-library/table/block.cc:20-42 | a finished block opens with its restarts where they are |
| Blocks.Iter.Next | FantasyIQ/Pods/leveldb-library/table/block.cc:137-140 | the next pair added, key rebuilt |
| Blocks.Iter.Prev | FantasyIQ/Pods/leveldb-library/table/block.cc:142-161 | from pair i to pair i-1 |
| Blocks.Iter.Seek | FantasyIQ/Pods/leveldb-library/table/block.cc:163-201 | binary search over restarts and linear scan land on the first key at or past the target |
| LogFormat.TornLog | FantasyIQ/Pods/leveldb-library/db/log_reader.cc:56-271 | for any records and any byte prefix of their file: reading gives exactly the records wholly in it, in order, and reports no corruption |
| LogFiles.Writer.AddRecord | FantasyIQ/Pods/leveldb-library/db/log_writer.cc:34-108 | appends the fragments and trailers of the format, also for a writer reopened at the end of a file |
| LogFiles.Reader.ReadRecord | FantasyIQ/Pods/leveldb-library/db/log_reader.cc:56-271 | for any bytes: the next record, position and reports of the format's reading |
| LogIntegrity.RecordsAreSealed | FantasyIQ/Pods/leveldb-library/db/log_reader.cc:56-271 | for any file, with checksums on: every record returned is the concatenation of payloads of physical records whose stored word is the masked checksum of type and payload, one full or first, middles and last, one right after the other; no byte is used twice |
| LogIntegrity.DamageIsReported | FantasyIQ/Pods/leveldb-library/db/log_reader.cc:240-257 | a physical record with a broken checksum anywhere a reader gets to has the rest of its block reported, and next what was underway of a record |
| LogIntegrity.BrokenIsDropped | FantasyIQ/Pods/leveldb-library/db/log_reader.cc:240-257 | at a broken checksum the reader drops the rest of the block with the record underway, and goes on with the next block as if nothing had been |
| LogIntegrity.OverlongIsDropped | FantasyIQ/Pods/leveldb-library/db/log_reader.cc:216-229 | the same at a length that leads out of a block that is there whole |
| LogIntegrity.ZerosArePassedOver | FantasyIQ/Pods/leveldb-library/db/log_reader.cc:231-237 | zeros where a header should be: the rest of the block is passed over without a report |
| Streams.StreamOfConcat | FantasyIQ/Pods/leveldb-library/db/log_writer.cc:23-30 | a writer reopened at the end of a stream continues it |
| Coding.UnmaskMask | FantasyIQ/Pods/leveldb-library/util/crc32c.h:22-38 | unmasking undoes masking |
| Coding.ExtendConcat | FantasyIQ/Pods/leveldb-library/util/crc32c.h:12-20 | extending a checksum by one piece after another is extending it by both |
| Coding.Varint32RoundTrip | FantasyIQ/Pods/leveldb-library/util/coding.cc:47-140 | decoding undoes the unrolled encoder |
| HandleTables.HandleTable.Insert | FantasyIQ/Pods/leveldb-library/util/cache.cc:78-92 | the handle joins; the one with its key, if there is one, leaves and is returned; growing does not lose any, and there are never fewer buckets than handles |
| HandleTables.HandleTable.Remove | FantasyIQ/Pods/leveldb-library/util/cache.cc:94-102 | the handle with the key leaves; none exactly when there is none |
| HandleTables.HandleTable.Lookup | FantasyIQ/Pods/leveldb-library/util/cache.cc:74-76 | the handle with the key, or none exactly when there is none |
| HandleTables.HandleTable.Resize | FantasyIQ/Pods/leveldb-library/util/cache.cc:122-145 | every handle in its bucket of the new size, which is the smallest power of two from 4 on that is not less than the number of handles; the contents stay |
| LruCaches.LRUCache.Ref | FantasyIQ/Pods/leveldb-library/util/cache.cc:217-223 | a handle only the cache holds moves to the in-use list |
| LruCaches.LRUCache.Unref | FantasyIQ/Pods/leveldb-library/util/cache.cc:225-237 | the last reference runs the deleter, once; the last but the cache's makes the handle newest on the LRU list |
| LruCaches.LRUCache.Lookup | FantasyIQ/Pods/leveldb-library/util/cache.cc:252-259 | a hit holds one more reference and is in use; a miss shows the key absent |
| LruCaches.LRUCache.Release | FantasyIQ/Pods/leveldb-library/util/cache.cc:261-264 | a reference is given back, with all consequences |
| LruCaches.LRUCache.Insert | FantasyIQ/Pods/leveldb-library/util/cache.cc:266-303 | the entry replaces the one with its key; then eviction, oldest first and no more than needed, until the charges fit or nothing is unheld; capacity zero caches nothing |
| LruCaches.LRUCache.Erase | FantasyIQ/Pods/leveldb-library/util/cache.cc:318-321 | just the entry with the key leaves |
| LruCaches.LRUCache.Prune | FantasyIQ/Pods/leveldb-library/util/cache.cc:323-333 | just the unheld entries leave, their deleters run |
| PbWire.ScalarRoundTrip | FantasyIQ/Pods/nanopb/pb_decode.c:1289-1380 | every integer of a field's width and kind, signed, unsigned, zigzag or fixed, decodes to itself; negative 32-bit values sign-extended on the wire included |
| PbWire.TagRoundTrip | FantasyIQ/Pods/nanopb/pb_decode.c:293-314 | tags of up to 29 bits with their wire types |
| PbEncoders.OStream.EncodeVarint | FantasyIQ/Pods/nanopb/pb_encode.c:574-594 | the loop writes the varint |
| PbEncoders.WriteMessage | FantasyIQ/Pods/nanopb/pb_encode.c:494-516 | succeeds exactly when no array or byte string is overfull and the stream has room for the whole message; then a buffer stream has gained the bytes and a sizing stream their number |
| PbEncoders.WriteSubmessage | FantasyIQ/Pods/nanopb/pb_encode.c:682-730 | two passes that never disagree: the "submsg size changed" error does not occur |
| PbEncoders.WriteArray | FantasyIQ/Pods/nanopb/pb_encode.c:126-211 | numbers are packed, other items tagged one by one; too many items is an error |
| PbRoundTrips.RoundTrip | FantasyIQ/Pods/nanopb/pb_decode.c:901-1062 | for every well-formed descriptor of static fields and every message pb_encode accepts (under 4 GiB): pb_decode gives it back, unset fields at their defaults, exactly when every text written leaves room for its terminator, and fails otherwise |
| PbRoundTrips.DecodesInto | FantasyIQ/Pods/nanopb/pb_decode.c:401-475 | reading an encoded message into memory that holds any other (pb_decode_noinit) merges the two: numbers, bytes and texts are replaced, submessages merged, items added to arrays, a chosen alternative of a union drops the others, what was not written stays; exactly when texts and arrays have room, and otherwise it fails |
| PbRoundTrips.ConcatenationMerges | FantasyIQ/Pods/nanopb/pb_decode.c:1463-1490 | the bytes of two messages one after the other decode to the second merged into the first |
| PbNorms.SameFields | FantasyIQ/Pods/nanopb/pb_encode.c:494-516 | what comes back encodes to the same bytes again |
| PbNorms.ZeroIsDefault | FantasyIQ/Pods/nanopb/pb_encode.c:215-296 | a proto3 field left out because it is zero is its default, through submessages |
| PbSilents.SilentIffDefault | FantasyIQ/Pods/nanopb/pb_encode.c:215-296 | a message without required fields takes no bytes if and only if it reads back as the default message |
| PbRoundTrips.BlobRoundTrip | FantasyIQ/Pods/nanopb/pb_decode.c:1391-1508 | bytes, texts and fixed-length bytes; a text that fills its array does not decode |
| PbDecoders.IStream.DecodeVarint32 | FantasyIQ/Pods/nanopb/pb_decode.c:182-242 | the loop, with its sign-extension rule, for any bytes |
| PbDecoders.IStream.DecodeVarint64 | FantasyIQ/Pods/nanopb/pb_decode.c:250-270 | the loop reads at most ten bytes, modulo 64 bits, for any bytes |
| PbDecoders.ReadField | FantasyIQ/Pods/nanopb/pb_decode.c:401-475 | for any bytes: one value into its place, packed arrays within their window, unions giving up the other alternatives |
| PbDecoders.ReadMessage | FantasyIQ/Pods/nanopb/pb_decode.c:901-1049 | for any bytes: the loop reads what `DecodeFields` says, of which the next rows speak |
| PbRequireds.DecodesIffComplete | FantasyIQ/Pods/nanopb/pb_decode.c:901-1049 | for any bytes: a message decodes if and only if it can be read field by field and every required field with fewer than 64 required ones before it has its tag among those read at its top level |
| PbRequireds.SubmessageIffComplete | FantasyIQ/Pods/nanopb/pb_decode.c:1463-1490 | the same inside a submessage, which fails with the message around it |
| PbRequireds.MissingRequiredFails | FantasyIQ/Pods/nanopb/pb_decode.c:1006-1044 | any encoded message without the bytes of one such required field does not decode |
| PbRequireds.MissingInsideFails | FantasyIQ/Pods/nanopb/pb_decode.c:1463-1490 | nor does a message with such bytes in a submessage, whatever comes after them |
| PbAnyBytes.DecodedIsHeld | FantasyIQ/Pods/nanopb/pb_decode.c:401-475 | for any bytes: no array or byte string of a decoded message, at any depth, holds more than it was declared for, and no union has two values |
| PbAnyBytes.UnknownIsSkipped | FantasyIQ/Pods/nanopb/pb_decode.c:316-331 | a field of any wire type that the message does not have makes no difference to what is decoded, wherever it stands |
| PbDecoders.ReadWhole | FantasyIQ/Pods/nanopb/pb_decode.c:1051-1062 | defaults first, then the fields |
| PbFieldIters.FieldIter.Next | FantasyIQ/Pods/nanopb/pb_common.c:20-76 | one on and round, with the count of required fields before |
| PbFieldIters.FieldIter.Find | FantasyIQ/Pods/nanopb/pb_common.c:78-96 | from wherever it stands: the field with the tag, or none exactly when there is none, back where it was |
## Left out

- User keys: in everything above tables they are points of a dense order (reals); only their order is used, and `Bytewise.RankKeepsOrder` embeds the byte strings in it. Tables, blocks, logs and batches are proved apart: a table holds entries where the file holds blocks of bytes, and the memtable holds entries where the batch holds records.
- Flush inside a running compaction: `DoCompactionWork` may call `CompactMemTable` midway; here a compaction is one step.
- Heuristics and sizes (scores, allowed seeks, output split points, size limits, skip-list heights, when a block is full) are parameters: any value is allowed.
- One background thread; the mutex is the atomicity of steps; memory order is sequential consistency. A skip-list search is proved against every interleaving with the stores of a writer, not against memory models.
- I/O failures: a write to the log or its sync may fail in `GroupCommit`, where a failed write leaves no record; other failures are orphaned tables and crashes. Appended log bytes are taken to survive a crash; that a torn log gives its whole records is `LogFormat.TornLog`.
- Corrupted tables and blocks, checksum failures of blocks, mmap, compression, the Env, and status values other than those named in the rows.
- RepairDB, DestroyDB, reuse_logs, nonzero initial_offset and LastRecordOffset of the log reader, DumpFile, C bindings.
- The sharding wrapper around the cache (a choice of shard by hash), its ids and its destructor; values and deleters are counted, not run.
- The comparator name, compaction pointers and previous log number of edits are modelled in `EditCodec` alone, not in the state machine; sequence numbers are taken to stay below 2^56.
- Hash functions and CRC32C are parameters; `Mask`, `Unmask` and extension over concatenation are proved.
- `Blocks`: `DecodeEntry` adds two lengths in 32 bits; the model adds them without wrap-around, which differs only for corrupt blocks. Blocks, filters and logs are below 4 GiB where they store 32-bit offsets.
- Tables.InternalGet: walks the index where the source searches it through an iterator; both stop at the first index key at or past the sought one.
- EditCodec.RoundTrip: byte strings shorter than 4 GiB, since lengths are stored in 32 bits; the same for `WriteBatches`, whose counts are below 2^31.
- PbRoundTrips.RoundTrip: messages shorter than 4 GiB, since lengths are decoded into 32 bits.
- nanopb extensions, callbacks, pointer fields, custom streams, fixed-count arrays without a counter, PB_WITHOUT_64BIT and null-terminated or delimited top-level forms.
- nanopb memory: a message is a value with one slot a field, so offsets in the struct, contents of arrays past their count and of unions that are not chosen are not modelled; `fields_seen` is a set, error texts are dropped, sizes do not wrap, and the bit position of an overlong varint (37 bytes and more) does not wrap at 8 bits.
- The app's own Swift code, Firebase and the other pods.
