# Proofs about the storage libraries of the app

The app vendors four C and C++ libraries whose logic decides whether data survives: the LevelDB
storage engine, the event loop library libuv, the protocol buffer library nanopb, and the CRC-32C
routine of LevelDB. This project models that logic in Dafny and proves what it promises.

* **The storage engine** (`Engine*`, `DbImpl`, `Versions`, `Compaction*`, `VersionSets`, `KeyRanges`,
  `InputIterators`, `MemTableOutput`, `VersionEdits`). A state machine over memtables, levels of table
  files, snapshots and a background compaction that flushes may interrupt. It is compared with the
  log of all writes (`MultiVersionMap`): a reader must get the last write at or below its number.
  Two properties are false of the code in general. A deletion can be dropped although an older value
  remains (`EngineWitnesses`), and a memtable that is flushed into the gap of a manual compaction can
  break the order of a level (`GapWitness`). For both there is a reachable run that fails and the
  exact condition under which the property holds.
* **Durability** (`LogFormat`, `LogFiles`, `LogResync`, `WriteBatches`, `GroupCommit`, `WriteQueues`, `LogRecovery`,
  `EditCodec`, `Manifests`, `Recovery`). Group commit against writing one batch at a time, logs and
  manifests that a crash cuts at any byte, and what is found again.
* **Iterators** (`DbIter`, `Merger`, `TwoLevel`, `Cursors`) as cursors on the sorted map they stand for.
* **Table files** (`BlockFormat`, `Blocks`, `Comparators`, `BloomFilters`, `FilterBlocks`, `TableRows`,
  `TableFooters`, `TableFiles`, `TableLookups`): a lookup through footer, index and filters against a
  linear search.
* **Pointer structures**: the skip list with a reader that runs during insertions (`SkipLists`), the
  LRU cache with its hash table and rings (`HandleTables`, `LruLists`, `LruCaches`), the heap of
  libuv and its timers (`Heaps`, `Timers`).
* **The thread pool of libuv** (`ThreadPools`) as a state machine and a class that carries out its steps.
* **CRC-32C** (`Crc32c`, `CrcDivision`): four interleaved stripes against one byte at a time, and that
  against polynomial division by the Castagnoli generator.
* **nanopb** (`PbMessages`, `PbEncoders`, `PbDecoders`, `PbDecodeLoop`, `PbRoundTrip`,
  `PbUnknownFields`, `PbSafety`): counting against writing, and decoding against encoding, for
  messages of any depth and for decoders that know only some of the fields; and over any bytes, decoding stays
  within the struct.
* **Formats** (`Formats`): the bytes of small inputs, so that writer and reader cannot agree on
  another format.

`dafny verify dfyconfig.toml` checks everything. Objects that the code updates in place are classes;
the loops of the code are loops. A state machine is given by a `Next` relation over values, and the
methods of the class prove that what they do is such a step.

User keys of the engine are modelled as real numbers: a dense order without end points, in which
every order of byte strings can be embedded, so that no proof can use a gap between two keys.
Keys in blocks, tables, batches and logs are byte strings.

## Model

| member | source | states |
|---|---|---|
| EngineRuns.ReadersGetTheLastWrite | ios/Pods/leveldb-library/db/db_impl.cc:1100-1145 | In every run of writes, memtable switches, flushes, moves and compactions whose compactions fit between the files they leave and resurrect nothing, an existing reader (the last published number, or a snapshot that is held) finds for every user key exactly the last write at or below its number |
| EngineRuns.RunsAreStructuredIff | ios/Pods/leveldb-library/db/version_set.cc:723-737 | All states of a run have sorted, disjoint levels above 0 and newer data before older data, in memtable, immutable memtable, level 0 by file number, level 1 and so on, if and only if the outputs of every compaction fit between the files that it leaves in its lower level |
| EngineRuns.EveryRunKeepsStructure | ios/Pods/leveldb-library/db/version_set.cc:282-321 | The order that the level search relies on, newest first across memtables and levels, with sorted levels above 0, holds after every step of such a run; only what was written is stored, and a running compaction stays consistent with the version |
| EngineRuns.ApartFlushesFit | ios/Pods/leveldb-library/db/db_impl.cc:901-915 | If every memtable that is flushed during a compaction into its output level lies before or after all of its inputs, then all compactions of the run fit |
| EngineRuns.AutomaticRunsFit | ios/Pods/leveldb-library/db/version_set.cc:1270-1322 | In runs whose compactions start from files without a gap in the user keys, which is what PickCompaction returns, every flush is apart from the inputs and every compaction fits |
| EngineRuns.ClosedRunsServeReaders | ios/Pods/leveldb-library/db/version_set.cc:1403-1423 | If the lower inputs of every compaction are closed over boundary files too, readers get the last write |
| EngineFlush.FlushKeeps | ios/Pods/leveldb-library/db/db_impl.cc:491-533 | Writing the immutable memtable to the picked level keeps the invariant and all answers, whatever compaction is running |
| EngineFlush.FlushKeepsApartIff | ios/Pods/leveldb-library/db/version_set.cc:491-517 | A flushed file leaves the lower files of a running compaction apart from its inputs if and only if it is not put in the output level or itself lies before or after all inputs |
| EngineFlush.FlushStaysApartIff | ios/Pods/leveldb-library/db/db_impl.cc:901-915 | The same, for the flush step that interleaves with the compaction loop |
| EngineFlush.GapFreeKeepsApart | ios/Pods/leveldb-library/db/version_set.cc:491-517 | If the inputs of the running compaction span no gap, a flush to its output level is apart from them, because no level above may overlap the flushed file |
| EngineCompaction.StartEstablishesJob | ios/Pods/leveldb-library/db/version_set.cc:1403-1462 | Right after inputs are chosen, upper files left behind hold newer data than the inputs, lower files left behind lie apart from them, and no file is read twice |
| EngineFinish.LowerSortedIffFits | ios/Pods/leveldb-library/db/db_impl.cc:860-876 | After the outputs replace the inputs, the lower level is sorted if and only if every lower file that stays is disjoint from every output |
| EngineFinish.FinishKeepsStructureIff | ios/Pods/leveldb-library/db/db_impl.cc:860-876 | Installing the results of a compaction keeps the invariant if and only if the outputs fit |
| EngineFinish.FinishTakesDropped | ios/Pods/leveldb-library/db/db_impl.cc:878-1036 | A finished compaction removes from the database exactly the entries that its loop dropped, fitting or not |
| EngineFinish.FinishPreservesReadsIff | ios/Pods/leveldb-library/db/db_impl.cc:878-1036 | A finished compaction keeps every answer at or above the oldest snapshot if and only if no deletion that it drops uncovers an older value elsewhere |
| EngineFinish.TrivialMoveKeeps | ios/Pods/leveldb-library/db/db_impl.cc:718-733 | Moving a single file down a level keeps the invariant and all answers |
| EngineWitnesses.DeletedValueReturns | ios/Pods/leveldb-library/db/version_set.cc:1403-1423 | A reachable run, with AddBoundaryInputs skipped for the lower inputs as in the code, after which a deleted key reads as its old value |
| GapWitness.GapLosesWrite | ios/Pods/leveldb-library/db/version_set.cc:1464-1495 | A reachable run in which a memtable is flushed into the gap of a manual compaction: afterwards level 2 is not sorted, and the binary search of Get misses the last write of a key |
| GapWitness.MergedDoesNotFit | ios/Pods/leveldb-library/db/db_impl.cc:878-1036 | The merged output of that compaction spans the flushed file, which is what the exact condition rules out |
| DbImpl.DBImpl.Get | ios/Pods/leveldb-library/db/db_impl.cc:1100-1145 | Memtable, then immutable memtable, then files returns the newest visible entry of the whole database at the snapshot, and the last write whenever the readers are served |
| DbImpl.DBImpl.Write | ios/Pods/leveldb-library/db/db_impl.cc:1185-1257 | A batch is appended to the history under consecutive numbers, inserted, and published as a whole; readers stay served |
| DbImpl.DBImpl.InsertInto | ios/Pods/leveldb-library/db/write_batch.cc:132-137 | The memtable gets the operations of a batch in order, under numbers counted up from the first |
| DbImpl.DBImpl.SwitchMemTable | ios/Pods/leveldb-library/db/db_impl.cc:1344-1366 | The full memtable becomes the immutable one, as one step of the state machine |
| DbImpl.DBImpl.CompactMemTable | ios/Pods/leveldb-library/db/db_impl.cc:535-566 | The immutable memtable becomes a file with the next number, on the level that PickLevelForMemTableOutput gives, or nothing if it is empty, also while a compaction with a gap is running |
| DbImpl.DBImpl.BackgroundCompaction | ios/Pods/leveldb-library/db/db_impl.cc:688-767 | The inputs are those picked for the trigger; a single file without lower inputs and with few overlapped grandparent bytes is moved, and everything else starts a compaction; each is a step of the state machine, and the inputs span no gap |
| DbImpl.DBImpl.ManualCompaction | ios/Pods/leveldb-library/db/db_impl.cc:697-715 | A manual range starts a compaction if and only if some file of the level touches it, of the inputs that CompactRange chooses |
| DbImpl.DBImpl.FinishCompaction | ios/Pods/leveldb-library/db/db_impl.cc:878-1036 | The inputs are merged, the loop runs, and its outputs, numbered upwards and cut at the limits, are installed: the database loses exactly the dropped entries, and the object is valid again if and only if the outputs fit |
| DbImpl.DBImpl.GetSnapshot | ios/Pods/leveldb-library/db/snapshot.h:57-76 | The new snapshot stands at the last published number and is a reader from now on |
| DbImpl.DBImpl.ReleaseSnapshot | ios/Pods/leveldb-library/db/snapshot.h:78-92 | Any snapshot can go; readers stay served |
| DbImpl.DBImpl.LogAndApply | ios/Pods/leveldb-library/db/version_set.cc:801-884 | The current version becomes the one that the edit describes |
| Versions.Get | ios/Pods/leveldb-library/db/version_set.cc:326-421 | Level 0 from newest to oldest, then at most one file of each level, returns the newest visible entry of the whole version |
| Versions.FindFile | ios/Pods/leveldb-library/db/version_set.cc:88-106 | Binary search for the first file whose largest key is not before the key |
| Versions.GetFromSortedLevel | ios/Pods/leveldb-library/db/version_set.cc:365-382 | One file found by binary search decides for a whole sorted level, also when neighbouring files share a user key |
| Versions.GetFromLevel0 | ios/Pods/leveldb-library/db/version_set.cc:349-364 | The first hit among the covering files, newest first, is the newest visible entry of level 0 |
| Tables.ProbeFindsNewest | ios/Pods/leveldb-library/table/table.cc:216-244 | The first entry at or after the lookup key is the newest visible one of the run |
| MultiVersionMap.ReadHistory | ios/Pods/leveldb-library/db/dbformat.cc:51-67 | Reading an unordered set that holds a history answers as the log of writes does |
| KeyRanges.GetOverlappingInputs | ios/Pods/leveldb-library/db/version_set.cc:519-559 | The restart loop ends with the files that overlap the least range that includes the given one and cuts through no file of level 0; growing the range never jumps over a gap |
| KeyRanges.SomeFileOverlapsRange | ios/Pods/leveldb-library/db/version_set.cc:122-158 | A binary search on sorted levels, a scan on level 0, is true if and only if some file overlaps the range |
| MemTableOutput.PickLevelForMemTableOutput | ios/Pods/leveldb-library/db/version_set.cc:491-517 | The level is the first one at which an overlap or too many overlapped grandparent bytes stop the descent, and never past the limit |
| CompactionInputs.AddBoundaryInputs | ios/Pods/leveldb-library/db/version_set.cc:1378-1401 | The loop ends; what it adds is, one by one, the smallest file that continues the last user key, and no file of the level continues it afterwards |
| CompactionInputs.BoundaryIsRun | ios/Pods/leveldb-library/db/version_set.cc:1344-1401 | On neighbours of a sorted level the result is the neighbours up to the end of the last user key |
| CompactionInputs.GetRange | ios/Pods/leveldb-library/db/version_set.cc:1205-1235 | One pass finds the least and the greatest key of the files |
| CompactionInputs.SetupOtherInputs | ios/Pods/leveldb-library/db/version_set.cc:1403-1462 | The picked files are closed; the lower inputs are the files that overlap them; the larger upper choice is taken exactly if it has more files, stays below the size limit and overlaps the same lower files; nothing else, since there is one such choice only (ChoiceIsUnique); a choice without a gap stays without one, and the pointer is the largest key of the upper inputs |
| CompactionInputs.ExpandUpper | ios/Pods/leveldb-library/db/version_set.cc:1425-1447 | The upper files that overlap the user keys of all inputs, closed, are accepted if and only if they are more, their size with the lower files is below the limit, and the lower files that overlap them are exactly the lower inputs |
| CompactionInputs.WiderIsUnique | ios/Pods/leveldb-library/db/version_set.cc:1425-1447 | The larger upper choice is determined by the files: the least closure in level 0, the run to the end of the last user key above it |
| CompactionInputs.ChoiceIsUnique | ios/Pods/leveldb-library/db/version_set.cc:1403-1462 | From the picked files and the size limit there is one choice of inputs only |
| CompactionInputs.FilterMonotone | ios/Pods/leveldb-library/db/version_set.cc:1434-1438 | Widening a range adds files only; if their number is the same, so are the files |
| VersionSets.VersionSet.PickCompaction | ios/Pods/leveldb-library/db/version_set.cc:1270-1322 | The file that has too many seeks, or the one that is next in turn behind the pointer of the level, is picked, in level 0 with the files it drags along; the inputs are the choice that SetupOtherInputs makes of it, without a gap, and the pointer of the level moves to their largest key |
| VersionSets.VersionSet.CompactRange | ios/Pods/leveldb-library/db/version_set.cc:1464-1495 | No compaction if and only if nothing touches the range; otherwise the inputs are the choice made of the files in the range, cut by size above level 0, and the pointer moves to their largest key |
| VersionSets.CutManual | ios/Pods/leveldb-library/db/version_set.cc:1472-1487 | Of the files in the range the shortest beginning that reaches the size limit is taken, or all |
| CompactionWork.BaseLevelCursor.IsBaseLevelForKey | ios/Pods/leveldb-library/db/version_set.cc:1533-1552 | With keys arriving in order, the cursor that never moves back answers as a full scan of the deeper levels |
| CompactionWork.DoCompactionWork | ios/Pods/leveldb-library/db/db_impl.cc:878-1036 | The output files hold, in order, exactly the entries that the drop rules keep, and are cut exactly where a file has reached the size limit or the grandparents overlap too much; no user key test is missed by the cursor |
| CompactionWork.GrandparentCursor.ShouldStopBefore | ios/Pods/leveldb-library/db/version_set.cc:1554-1576 | With keys arriving in order, the cursor over the grandparents answers as a sum over the grandparent files that end between the keys that came so far and this one |
| CompactionWork.CutsAreBounded | ios/Pods/leveldb-library/db/db_impl.cc:921-995 | No output is empty, none had reached the size limit before its last entry, and the grandparent files between its first and its last key have no more than the allowed bytes, so that merging it into the next level stays bounded |
| CompactionReads.DropRules | ios/Pods/leveldb-library/db/db_impl.cc:948-966 | An entry is dropped if and only if a newer entry of its user key is visible to the oldest snapshot, or it is a deletion that is visible to it and that no deeper level could need |
| CompactionReads.CompactionPreservesReadsIff | ios/Pods/leveldb-library/db/db_impl.cc:878-1036 | For any database, sorted input and oldest snapshot below the largest sequence number, the drop loop keeps every answer if and only if no dropped decisive deletion uncovers an older value |
| CompactionReads.NoOlderOutsideSuffices | ios/Pods/leveldb-library/db/version_set.cc:1403-1423 | It does so in particular if no older entry of a dropped deletion lies outside the inputs |
| CompactionReads.SentinelFailsAtMaximum | ios/Pods/leveldb-library/db/db_impl.cc:892-950 | With the oldest snapshot at the largest sequence number the loop would drop every entry |
| InputIterators.MakeInputIterator | ios/Pods/leveldb-library/db/version_set.cc:1237-1268 | The merging iterator over one cursor for each file of level 0 and one for each other level is well formed and stands for exactly the entries of the inputs |
| InputIterators.ReadInputs | ios/Pods/leveldb-library/db/version_set.cc:1237-1268 | Scanning it from the first entry yields every input entry once, in order |
| VersionEdits.Builder.Apply | ios/Pods/leveldb-library/db/version_set.cc:650-692 | Deletions, then new files, each of which cancels a deletion, level by level |
| VersionEdits.Builder.SaveTo | ios/Pods/leveldb-library/db/version_set.cc:695-739 | The merge of base files and added files gives, sorted, all of them that are not deleted |
| VersionEdits.EditMembers | ios/Pods/leveldb-library/db/version_set.cc:650-754 | One edit takes from a level the files it deletes and adds the files it adds |
| VersionEdits.ReplayStep | ios/Pods/leveldb-library/db/version_set.cc:886-1011 | Folding one more edit into a builder gives the level that applying it to the saved level gives, if no number is added twice |
| VersionEdits.ReaddedNumberRevives | ios/Pods/leveldb-library/db/version_set.cc:650-754 | If a number were added again, an older file would come back |
| Recovery.RunReplays | ios/Pods/leveldb-library/db/version_set.cc:801-884 | In every run no number is added to a level twice, and the edits logged so far fold to the current version |
| Recovery.RecoverRebuildsVersion | ios/Pods/leveldb-library/db/version_set.cc:886-1011 | Folding all edits of a run into one builder and saving once gives the version that applying them one by one has produced |
| EditCodec.VersionEdit.EncodeTo | ios/Pods/leveldb-library/db/version_edit.cc:41-85 | The bytes are those of the fields in their fixed order, deleted files in ascending order |
| EditCodec.VersionEdit.DecodeFrom | ios/Pods/leveldb-library/db/version_edit.cc:107-205 | Over any bytes: the fields up to the first broken one are taken, in any order, and the complaint names that one; compaction pointers from before stay |
| EditCodec.ScanBack | ios/Pods/leveldb-library/db/version_edit.cc:107-205 | Fields written in any order read back as they were |
| EditCodec.EditRoundTrip | ios/Pods/leveldb-library/db/version_edit.cc:26-205 | Decoding an encoded edit gives the edit, behind the compaction pointers that Clear leaves in the object |
| Manifests.Recover | ios/Pods/leveldb-library/db/version_set.cc:905-1003 | Over any records: it fails if and only if a record is broken, names another comparator, or a counter never comes; otherwise the version is that of the folded edits and each counter that of the last edit that sets it |
| Manifests.NewDbCounters | ios/Pods/leveldb-library/db/version_set.cc:976-1003 | The manifest of a new database is recovered with next file 3, manifest 2 and all else zero |
| Manifests.RecoverAfterCrash | ios/Pods/leveldb-library/db/version_set.cc:801-1011 | From the bytes of a manifest that was cut at any byte, as long as the records of the first steps were synced: the version is the one that was current after those steps or at a later point of the run, with the counters logged by then; the whole manifest gives the last version |
| DbIter.DBIter.Seek | ios/Pods/leveldb-library/db/db_iter.cc:269-281 | Stands at the first live user key at or after the target in the map that is visible at the sequence |
| DbIter.DBIter.SeekToFirst | ios/Pods/leveldb-library/db/db_iter.cc:283-292 | Stands at the first entry of that map |
| DbIter.DBIter.SeekToLast | ios/Pods/leveldb-library/db/db_iter.cc:294-299 | Stands at its last entry |
| DbIter.DBIter.Next | ios/Pods/leveldb-library/db/db_iter.cc:141-166 | From any position, in either direction so far, to the next entry of the map |
| DbIter.DBIter.Prev | ios/Pods/leveldb-library/db/db_iter.cc:200-225 | From any position, in either direction so far, to the previous entry of the map |
| DbIter.DBIter.FindNextUserEntry | ios/Pods/leveldb-library/db/db_iter.cc:168-198 | Finds the next entry that is newest for its user key and no deletion |
| DbIter.DBIter.FindPrevUserEntry | ios/Pods/leveldb-library/db/db_iter.cc:227-267 | Finds the previous one, and saves its newest visible value |
| DbIter.ViewIsTheMap | ios/Pods/leveldb-library/db/db_iter.cc:34-46 | The entries that the iterator shows are, in ascending order, exactly the pairs that point reads return |
| Merger.MergingIterator.Seek | ios/Pods/leveldb-library/table/merger.cc:47-53 | Stands at the first entry of the sorted union at or after the target |
| Merger.MergingIterator.Next | ios/Pods/leveldb-library/table/merger.cc:55-79 | To the next entry of the union, also after moving backwards |
| Merger.MergingIterator.Prev | ios/Pods/leveldb-library/table/merger.cc:81-108 | To the previous entry of the union, also after moving forwards |
| Merger.MergingIterator.FindSmallest | ios/Pods/leveldb-library/table/merger.cc:148-161 | With all children at or after a place, the smallest child stands at that place |
| Merger.MergingIterator.FindLargest | ios/Pods/leveldb-library/table/merger.cc:163-175 | With all children before a place, the largest child stands just before it |
| TwoLevel.TwoLevelIterator.Seek | ios/Pods/leveldb-library/table/two_level_iterator.cc:82-87 | Stands at the first entry at or after the target of all blocks in a row |
| TwoLevel.TwoLevelIterator.Next | ios/Pods/leveldb-library/table/two_level_iterator.cc:103-107 | One entry on in all blocks in a row |
| TwoLevel.TwoLevelIterator.Prev | ios/Pods/leveldb-library/table/two_level_iterator.cc:109-113 | One entry back in all blocks in a row |
| TwoLevel.TwoLevelIterator.YieldsEntry | ios/Pods/leveldb-library/table/two_level_iterator.cc:31-38 | Where it stands it yields that entry of all blocks in a row |
| TwoLevel.TwoLevelIterator.SkipEmptyDataBlocksForward | ios/Pods/leveldb-library/table/two_level_iterator.cc:115-126 | Skips empty blocks without losing an entry, and ends |
| TwoLevel.TwoLevelIterator.SkipEmptyDataBlocksBackward | ios/Pods/leveldb-library/table/two_level_iterator.cc:128-139 | The same backwards |
| SkipLists.SkipList.FindGreaterOrEqual | ios/Pods/leveldb-library/db/skiplist.h:260-282 | The first node at or after the key, and at every level the last node before it |
| SkipLists.SkipList.FindLessThan | ios/Pods/leveldb-library/db/skiplist.h:284-302 | The last node before the key |
| SkipLists.SkipList.FindLast | ios/Pods/leveldb-library/db/skiplist.h:304-322 | The last node |
| SkipLists.SkipList.Contains | ios/Pods/leveldb-library/db/skiplist.h:370-378 | True if and only if the key is in the list |
| SkipLists.SkipList.Insert | ios/Pods/leveldb-library/db/skiplist.h:336-368 | The list is well formed and has one more key |
| SkipLists.Insertion.Point | ios/Pods/leveldb-library/db/skiplist.h:362-366 | The first store of a level: the new node points on, and no reader sees a difference |
| SkipLists.Insertion.Publish | ios/Pods/leveldb-library/db/skiplist.h:362-366 | The second store: the level holds the new key, every level is still sorted and a part of the one below |
| SkipLists.Race | ios/Pods/leveldb-library/db/skiplist.h:260-368 | A reader whose single loads are interleaved at will with the single stores of any number of insertions, and that started with an old height, ends at the first key at or after its target; it needs no more turns than there are levels and keys, whatever the writer does; and the writer has linked a key after two stores a level, whatever the reader does |
| SkipLists.ListIterator.Prev | ios/Pods/leveldb-library/db/skiplist.h:212-221 | To the exact predecessor, by searching |
| Heaps.Heap.NodeSwap | ios/Pods/Libuv-gRPC/src/heap-inl.h:72-102 | Parent and child trade places: all links to and from them are those of the tree with the two exchanged |
| Heaps.PathTo | ios/Pods/Libuv-gRPC/src/heap-inl.h:113-138 | The bits of the path lead from the root to the node number |
| Heaps.Heap.Insert | ios/Pods/Libuv-gRPC/src/heap-inl.h:106-148 | A complete, ordered tree with consistent links and one more node |
| Heaps.Heap.Remove | ios/Pods/Libuv-gRPC/src/heap-inl.h:150-237 | Removing any node leaves a complete, ordered tree of the others |
| Heaps.Heap.Dequeue | ios/Pods/Libuv-gRPC/src/heap-inl.h:239-241 | Takes a node that no other is less than |
| Heaps.Heap.MinIsFirst | ios/Pods/Libuv-gRPC/src/heap-inl.h:67-69 | The root is a least node |
| Timers.Loop.Start | ios/Pods/Libuv-gRPC/src/timer.c:66-94 | The timer is in the heap once, under its due time, cut off at the largest time, and a new start number |
| Timers.Loop.Stop | ios/Pods/Libuv-gRPC/src/timer.c:97-107 | The timer is inactive and out of the heap |
| Timers.Loop.Again | ios/Pods/Libuv-gRPC/src/timer.c:110-120 | Fails without a callback; starts a repeating timer over, its interval after the present time and under a new start number, and changes nothing about any other |
| Timers.Loop.Fire | ios/Pods/Libuv-gRPC/src/timer.c:154-171 | The least timer is stopped; if it repeats, it is in the heap again, active, its interval after the present time and under a new start number, and otherwise it is inactive and out of the heap; no other timer changes |
| Timers.Loop.RunTimers | ios/Pods/Libuv-gRPC/src/timer.c:154-171 | Fires exactly the timers that were due, in the order of due time and start number; those that repeat are in the heap again, due their interval later, with start numbers that ascend in firing order; those that do not are inactive and out of the heap; all others stay under their old keys |
| ThreadPools.EveryRunKeeps | ios/Pods/Libuv-gRPC/src/threadpool.c:57-160 | In every run each request is in exactly one place, slow work that waits is announced once in the queue, the counters are right and work that can run is never left to sleeping threads |
| ThreadPools.SlowWorkAndDelivery | ios/Pods/Libuv-gRPC/src/threadpool.c:57-160 | Waiting slow work implies the sentinel is queued, at most half of the threads run slow work, and each request is delivered at most once |
| ThreadPools.CancelledIffNotStarted | ios/Pods/Libuv-gRPC/src/threadpool.c:269-315 | A request can be cancelled exactly until a thread takes it, and it is delivered as cancelled exactly if no thread has |
| ThreadPools.WorkIsNeverStranded | ios/Pods/Libuv-gRPC/src/threadpool.c:57-160 | In every run, as long as the queue holds more than the announcement of slow work, or fewer than half of the threads, rounded up, run slow work, some thread is awake or all have been told to exit |
| ThreadPools.SleepsIff | ios/Pods/Libuv-gRPC/src/threadpool.c:71-78 | In every run, a turn puts its worker to sleep if and only if the queue is empty, or holds the announcement of slow work only while half of the threads, rounded up, run slow work |
| ThreadPools.SlowWorkStartsIff | ios/Pods/Libuv-gRPC/src/threadpool.c:90-117 | In every run, a turn that finds the announcement of slow work first starts the first slow request, and announces the next, if and only if fewer than half of the threads, rounded up, run slow work |
| ThreadPools.SlowShareIsReached | ios/Pods/Libuv-gRPC/src/threadpool.c:45-47 | For every number of threads and every share up to half of them, rounded up, some run has exactly so many threads run slow work |
| ThreadPools.Pool.Turn | ios/Pods/Libuv-gRPC/src/threadpool.c:57-140 | A turn of a worker is a step of the state machine, in each of its branches, and the worker sleeps exactly if there is nothing that it may run |
| ThreadPools.Pool.Submit | ios/Pods/Libuv-gRPC/src/threadpool.c:142-160 | Posting is a step of the state machine; slow work goes behind the sentinel |
| ThreadPools.Pool.CancelTake | ios/Pods/Libuv-gRPC/src/threadpool.c:269-293 | Cancelling succeeds if and only if the request is still queued and has not been worked on |
| ThreadPools.Pool.WorkDone | ios/Pods/Libuv-gRPC/src/threadpool.c:295-315 | All finished requests are delivered once, in order, as cancelled if they never started |
| Crc32c.ExtendStriped | ios/Pods/leveldb-library/util/crc32c.cc:276-377 | For every length and alignment the four interleaved stripes give the checksum that one byte at a time gives; CRC32C of section 12.1 of RFC 3720 |
| CrcDivision.FoldIsRemainder | ios/Pods/leveldb-library/util/crc32c.cc:276-377 | The register after some bytes is the remainder of their bits, with the start value in front, by the Castagnoli generator, and no other word is |
| CrcDivision.ValueIsRemainder | ios/Pods/leveldb-library/util/crc32c.h:17-27 | The checksum is the inverted remainder after a start with all ones, and no other word is |
| CrcDivision.PolynomialIsGenerator | ios/Pods/leveldb-library/util/crc32c.cc:20-63 | The constant of the byte table is the generator with exponents 32, 28, 27, 26, 25, 23, 22, 20, 19, 18, 14, 13, 11, 10, 9, 8, 6 and 0, without the first |
| CrcDivision.RemainderIsUnique | ios/Pods/leveldb-library/util/crc32c.cc:20-63 | A polynomial has one remainder by the generator only |
| CrcDivision.CheckValue | ios/Pods/leveldb-library/util/crc32c.cc:264-275 | The checksum of TestCRCBuffer is 0xdcbc59fa |
| Crc32c.StripeStep | ios/Pods/leveldb-library/util/crc32c.cc:293-310 | Advancing a stripe by its stride equals sixteen zero bytes, by linearity over exclusive or |
| Crc32c.StridesAdvance | ios/Pods/leveldb-library/util/crc32c.cc:293-310 | The four stride tables together advance a word by sixteen bytes |
| Crc32c.ExtendConcat | ios/Pods/leveldb-library/util/crc32c.cc:276-377 | Extending over a concatenation is extending twice |
| Crc32c.UnmaskMask | ios/Pods/leveldb-library/util/crc32c.h:29-39 | Unmasking undoes masking |
| Crc32c.MaskRotates | ios/Pods/leveldb-library/util/crc32c.h:29-33 | Masking rotates the lower fifteen bits to the top and adds 0xa282ead8 |
| LogFormat.FragmentsFit | ios/Pods/leveldb-library/db/log_writer.cc:34-80 | However a record is cut, every fragment stays within its block |
| LogFiles.Writer.AddRecord | ios/Pods/leveldb-library/db/log_writer.cc:34-80 | The file is the log of all records added so far |
| LogFiles.Reader.ReadPhysicalRecord | ios/Pods/leveldb-library/db/log_reader.cc:189-271 | The next fragment that the file holds whole, or the end; never a report |
| LogFiles.Reader.ReadRecord | ios/Pods/leveldb-library/db/log_reader.cc:56-174 | The next record if the file holds all its fragments, or the end; never a report |
| LogFiles.ReadLog | ios/Pods/leveldb-library/db/log_reader.cc:56-174 | From a log that was cut at any byte exactly the records that it holds whole are read, with no report of corruption; from a whole log all records |
| LogResync.ReadsAsParsed | ios/Pods/leveldb-library/db/log_reader.cc:56-174 | Over any physical records, also damaged ones: handed out are exactly the records that are whole, a full fragment or a first, middle ones and a last without anything in between, in order; what is out of place is reported, and what is broken off, unless no byte of it had come or the file ends there |
| WriteBatches.WriteBatch.Put | ios/Pods/leveldb-library/db/write_batch.cc:98-103 | The bytes are those of one more operation |
| WriteBatches.WriteBatch.Append | ios/Pods/leveldb-library/db/write_batch.cc:111-148 | The operations of the other batch follow, under the own number |
| WriteBatches.Iterate | ios/Pods/leveldb-library/db/write_batch.cc:42-80 | Over any bytes: the operations up to the first broken record are handed out, and the count is checked at the end |
| WriteBatches.InsertInto | ios/Pods/leveldb-library/db/write_batch.cc:119-137 | They go into the memtable under consecutive numbers from the header |
| WriteBatches.ReplayOfContents | ios/Pods/leveldb-library/db/write_batch.cc:42-137 | A batch replays as the operations that were put into it |
| GroupCommit.BuildBatchGroup | ios/Pods/leveldb-library/db/db_impl.cc:1260-1306 | The batch holds the operations of the first writers in queue order; the leader's own batch is not changed when others join |
| GroupCommit.GroupEndIsLongest | ios/Pods/leveldb-library/db/db_impl.cc:1276-1296 | The group stops only at a sync writer behind a leader that does not sync, or where the size limit would be passed |
| GroupCommit.GroupEndLed | ios/Pods/leveldb-library/db/db_impl.cc:1281-1284 | A sync writer is in a group only if the leader syncs |
| WriteQueues.EveryRunKeepsInv | ios/Pods/leveldb-library/db/db_impl.cc:1185-1257 | In every run of arrivals, groups, failures and log switches each batch is logged and applied once, in queue order and under contiguous numbers, and acknowledged sync writes are on disk |
| WriteQueues.GroupsWriteOneAtATime | ios/Pods/leveldb-library/db/db_impl.cc:1185-1257 | Whenever the queue rests, the memtable is what writing the same batches one at a time gives, and exactly the applied ones were acknowledged as good |
| WriteQueues.NeverStuck | ios/Pods/leveldb-library/db/db_impl.cc:1185-1257 | In every run, as long as a writer waits, some writer can go on, also after a failed sync, unless the sequence numbers are used up |
| WriteQueues.StepsAdvance | ios/Pods/leveldb-library/db/db_impl.cc:1185-1257 | Every such step brings the answers nearer, so that every writer gets one |
| WriteQueues.CoveredIsMember | ios/Pods/leveldb-library/db/db_impl.cc:1260-1306 | In every run the log record that covers a request holds it, at its place in the group |
| LogRecovery.RecoverLogFile | ios/Pods/leveldb-library/db/db_impl.cc:371-481 | From a log file that was cut at any byte exactly the groups it holds whole are inserted again, under their old numbers; full memtables become tables on the way, as soon as they are past the limit; and the largest number is found |
| LogRecovery.FilledPastLimit | ios/Pods/leveldb-library/db/db_impl.cc:441-452 | The memtables that became tables are all past the limit, the one that is left is not, and together they hold what was replayed |
| LogRecovery.RecoverLogs | ios/Pods/leveldb-library/db/db_impl.cc:310-366 | The same over all live logs, oldest first, and no synced record is missing |
| LogRecovery.AcknowledgedSyncSurvives | ios/Pods/leveldb-library/db/db_impl.cc:1185-1257 | A write that asked for sync and was acknowledged is found again after any crash |
| LogRecovery.PrefixIffInOrder | ios/Pods/leveldb-library/db/db_impl.cc:310-366 | What is found again is a beginning of what was written if and only if no older live log lost a record while a newer one kept one |
| LogRecovery.RecoversOneAtATime | ios/Pods/leveldb-library/db/db_impl.cc:310-366 | In that case the recovered state is that of writing a beginning of the batches one at a time |
| LogRecovery.LaterSyncedWriteSurvivesAlone | ios/Pods/leveldb-library/db/db_impl.cc:1344-1366 | A run after which a crash keeps a later synced write and loses an earlier acknowledged one, since switching logs does not sync the old one |
| LogRecovery.IntactLogsAreAnImage | ios/Pods/leveldb-library/db/db_impl.cc:310-366 | Without a crash the logs of any run are one of the images that the recovery theorems speak about |
| Coding.GetVarint | ios/Pods/leveldb-library/util/coding.cc:112-158 | The loop reads the number that the bytes spell, cut to the machine word, and refuses what is too long |
| Coding.EncodeVarint32 | ios/Pods/leveldb-library/util/coding.cc:47-73 | Each of the five branches writes the bytes of the number |
| Coding.VarintRoundTrip | ios/Pods/leveldb-library/util/coding.cc:47-158 | What was written reads back, whatever follows |
| Coding.SliceRoundTrip | ios/Pods/leveldb-library/util/coding.cc:98-193 | A string of less than 4 GiB reads back, whatever follows |
| Coding.FixedRoundTrip | ios/Pods/leveldb-library/util/coding.cc:9-19 | Fixed-width numbers read back |
| Formats.NumberBytes | ios/Pods/leveldb-library/util/coding.cc:9-73 | Fixed numbers are little-endian, varints carry seven bits a byte, the lowest first, and a string follows its length |
| Formats.BatchBytes | ios/Pods/leveldb-library/db/write_batch.cc:5-14 | The bytes of a batch of one put and one deletion |
| Formats.EditBytes | ios/Pods/leveldb-library/db/version_edit.cc:14-24 | The bytes of each field of a version edit, under its tag |
| Formats.LogBytes | ios/Pods/leveldb-library/db/log_format.h:14-31 | The bytes of a record in a log, with its masked checksum, length and type |
| Formats.LogBlocks | ios/Pods/leveldb-library/db/log_writer.cc:34-80 | How three records of 1000, 97270 and 8000 bytes are laid out over the blocks of a log |
| Formats.BlockBytes | ios/Pods/leveldb-library/table/block_builder.cc:5-27 | The bytes of entries with and without a shared prefix, and of the restart array |
| Formats.TableBytes | ios/Pods/leveldb-library/table/table_builder.cc:173-196 | The bytes behind a block, type and masked checksum, and those of a handle |
| Formats.ProbeBits | ios/Pods/leveldb-library/util/bloom.cc:28-54 | How the hash is rotated for the next probe, which bit of a byte a probe sets, and the length of the stretch of a filter |
| Formats.KeyBytes | ios/Pods/leveldb-library/db/dbformat.cc:15-20 | The bytes of an internal key of a value and of a deletion |
| Formats.NumberFields | ios/Pods/nanopb/pb_encode.c:608-639 | The bytes of numeric nanopb fields |
| Formats.FixedFields | ios/Pods/nanopb/pb_encode.c:641-707 | The bytes of fixed nanopb fields of four and eight bytes |
| Formats.StringField | ios/Pods/nanopb/pb_encode.c:709-715 | The bytes of a nanopb string field |
| Formats.PackedField | ios/Pods/nanopb/pb_encode.c:147-201 | The bytes of a packed nanopb array |
| Formats.SampleMessage | ios/Pods/nanopb/pb_encode.c:341-428 | The bytes of a message with a required number, a proto3 default that is left out and a proto3 number, and that they read back |
| BlockFormat.BlockBuilder.Add | ios/Pods/leveldb-library/table/block_builder.cc:72-106 | The buffer holds one more entry, with the prefix it shares or a restart |
| Blocks.FinishedIsFormed | ios/Pods/leveldb-library/table/block_builder.cc:62-70 | A finished block below 4 GiB is one that the iterator reads |
| Blocks.EndsWithinIff | ios/Pods/leveldb-library/table/block.cc:53-75 | Over any bytes below 4 GiB: an entry that is accepted ends within them if and only if the sum of its lengths, which is taken in 32 bits, did not wrap around |
| Blocks.Iter.ParseNextKey | ios/Pods/leveldb-library/table/block.cc:224-251 | Decodes the entry at the position, with its full key |
| Blocks.Iter.Seek | ios/Pods/leveldb-library/table/block.cc:163-201 | Stands at the first key that is not less than the target |
| Blocks.Iter.Prev | ios/Pods/leveldb-library/table/block.cc:142-161 | Stands at the exact predecessor |
| Blocks.RoundTrip | ios/Pods/leveldb-library/table/block.cc:77-251 | For any keys and restart interval, iterating the finished block yields the pairs that were added, and seeking the first at or after the target |
| Comparators.FindShortestSeparator | ios/Pods/leveldb-library/util/comparator.cc:29-50 | The separator of the two: where they differ, the string is cut and raised if there is room below the limit, and otherwise it stays |
| Comparators.SeparatorIsShortest | ios/Pods/leveldb-library/util/comparator.cc:29-50 | It is the key itself, or lies strictly between the two; and if it is not the key itself, no shorter string lies between them |
| Comparators.FindShortSuccessor | ios/Pods/leveldb-library/util/comparator.cc:52-64 | The first byte that is not 0xff is raised and the rest cut off |
| Comparators.SuccessorIsShortest | ios/Pods/leveldb-library/util/comparator.cc:52-64 | It is the key itself exactly if that is all 0xff, and otherwise greater; no shorter string is at or after the key |
| Comparators.InternalSeparator | ios/Pods/leveldb-library/db/dbformat.cc:69-86 | The separator of the user keys with the first tag behind it, if that is shorter than the user key and after it, and otherwise the key itself |
| Comparators.InternalSuccessor | ios/Pods/leveldb-library/db/dbformat.cc:88-101 | The successor of the user key with the first tag behind it, if that is shorter than the user key and after it, and otherwise the key itself |
| Comparators.FirstTagIsGreatest | ios/Pods/leveldb-library/db/dbformat.h:58-67 | No sequence number and type pack to a greater tag than the one that is put behind a shortened key |
| BloomFilters.BloomFilterPolicy.CreateFilter | ios/Pods/leveldb-library/util/bloom.cc:28-54 | The filter has the least number of whole bytes, eight at least, that gives each key its bits, then the number of probes; the bits that are set are exactly those that some key probes |
| BloomFilters.BloomFilterPolicy.KeyMayMatch | ios/Pods/leveldb-library/util/bloom.cc:56-80 | True if and only if all probes are set, or the filter is of a kind not known |
| BloomFilters.BloomFilterPolicy.FilterMatchesItsKeys | ios/Pods/leveldb-library/util/bloom.cc:28-80 | A filter never denies a key that it was made from |
| FilterBlocks.FilterBlockBuilder.Finish | ios/Pods/leveldb-library/table/filter_block.cc:35-75 | The block holds, for each stretch of the file, a filter for the keys added for it |
| FilterBlocks.FilterBlockReader.KeyMayMatch | ios/Pods/leveldb-library/table/filter_block.cc:90-104 | True exactly if the stretch in which the block starts has no filter or its filter may match the user key; never denies a key of the stretch |
| TableRows.SeekByIndex | ios/Pods/leveldb-library/table/table.cc:216-244 | Seeking in the index and then in the block it names finds the first entry at or after the target, or proves that its user key is not the target's |
| TableFiles.TableBuilder.constructor | ios/Pods/leveldb-library/table/table_builder.cc:65-70 | An empty table, with filters of the given policy |
| TableFiles.TableBuilder.Add | ios/Pods/leveldb-library/table/table_builder.cc:94-123 | Keys in ascending order: the table holds one more entry, the index entry of the block before is closed with a separator, and the data block goes to the file exactly when it has reached the size of a block |
| TableFiles.TableBuilder.Flush | ios/Pods/leveldb-library/table/table_builder.cc:125-139 | The data block goes to the file and no entry is lost |
| TableFiles.TableBuilder.Finish | ios/Pods/leveldb-library/table/table_builder.cc:198-253 | The bytes are a table: blocks, filter block, metaindex, index and footer, together holding exactly what was added |
| TableFiles.ReadsBack | ios/Pods/leveldb-library/table/format.cc:64-140 | A block with a right checksum reads back |
| TableFooters.HandleRoundTrip | ios/Pods/leveldb-library/table/format.cc:15-29 | Block handles read back |
| TableFooters.FooterRoundTrip | ios/Pods/leveldb-library/table/format.cc:31-62 | A footer reads back |
| TableFooters.MagicRefused | ios/Pods/leveldb-library/table/format.cc:42-51 | Bytes that do not end in the magic number of a table are refused |
| TableLookups.ReadFooter | ios/Pods/leveldb-library/table/table.cc:41-54 | Of any bytes: no footer if there are too few or they do not end in the magic number; the footer that was written at their end, if one was |
| TableLookups.OpenTable | ios/Pods/leveldb-library/table/table.cc:38-135 | Opening the bytes that a builder wrote, with its policy or none, leads by footer, index and metaindex to the table that was built, with its filters if both have a policy |
| TableLookups.Table.InternalGet | ios/Pods/leveldb-library/table/table.cc:216-244 | On a table that was built: reports exactly the first entry at or after the key in the block that index and filter give; that is the first such entry of the table, reported whenever it has the user key of the key: separators and filters never hide it |
| TableLookups.Table.BlockReader | ios/Pods/leveldb-library/table/table.cc:155-208 | The iterator over the block that the index names |
| HandleTables.HandleTable.FindPointer | ios/Pods/leveldb-library/util/cache.cc:114-120 | The slot that points to the match, or the end of the right bucket |
| HandleTables.HandleTable.Lookup | ios/Pods/leveldb-library/util/cache.cc:74-76 | The entry with the key and hash, or the proof that there is none |
| HandleTables.HandleTable.Insert | ios/Pods/leveldb-library/util/cache.cc:78-92 | The entry is in the table, the one with its key is out, and the array grows exactly when there are more entries than buckets |
| HandleTables.HandleTable.Remove | ios/Pods/leveldb-library/util/cache.cc:94-101 | The entry with the key is out |
| HandleTables.HandleTable.Resize | ios/Pods/leveldb-library/util/cache.cc:122-146 | All entries are in the buckets of the new array, whose length is the least power of two from four on that is at least the number of entries |
| HandleTables.IndexIsMasked | ios/Pods/leveldb-library/util/cache.cc:115-115 | Masking with the length less one is the remainder, since the length is a power of two |
| LruLists.Remove | ios/Pods/leveldb-library/util/cache.cc:239-242 | The ring is that of the list without the entry |
| LruLists.Append | ios/Pods/leveldb-library/util/cache.cc:244-250 | The ring is that of the list with the entry at its end |
| LruCaches.LRUCache.Ref | ios/Pods/leveldb-library/util/cache.cc:217-223 | One more holder; an idle entry moves to the end of the entries in use |
| LruCaches.LRUCache.Unref | ios/Pods/leveldb-library/util/cache.cc:225-237 | One holder less; the last one runs the deleter, the last but the cache makes the entry the newest idle one |
| LruCaches.LRUCache.Lookup | ios/Pods/leveldb-library/util/cache.cc:252-259 | The entry of the key map, with one more holder, or null |
| LruCaches.LRUCache.Release | ios/Pods/leveldb-library/util/cache.cc:261-264 | A handle is given back; the cache keeps its invariant |
| LruCaches.LRUCache.Insert | ios/Pods/leveldb-library/util/cache.cc:266-303 | Afterwards the usage fits the capacity or no entry is idle; what had the key is gone, the oldest idle entries are gone and only as many as needed, and nothing else has changed |
| LruCaches.LRUCache.FinishErase | ios/Pods/leveldb-library/util/cache.cc:307-316 | The entry leaves its list and the usage; the deleter runs if nobody holds it |
| LruCaches.LRUCache.Erase | ios/Pods/leveldb-library/util/cache.cc:318-321 | The key map loses the key and nothing else |
| LruCaches.LRUCache.Prune | ios/Pods/leveldb-library/util/cache.cc:323-333 | No entry is idle, entries in use stay |
| LruCaches.LRUCache.DeletersRunOnce | ios/Pods/leveldb-library/util/cache.cc:225-237 | In every valid state the deleter of an entry has run once if neither a caller nor the cache holds it, and not at all otherwise |
| PbEncoders.OStream.PutSubmessage | ios/Pods/nanopb/pb_encode.c:717-765 | The submessage is written behind the size that counting found, in a stream of just that size; the error of a changed size cannot happen, at any depth |
| PbEncoders.OStream.PutArray | ios/Pods/nanopb/pb_encode.c:147-236 | Packed numbers behind their total size, or items one by one; refused if and only if the count is beyond the array or an item is not acceptable or it does not fit |
| PbEncoders.OStream.Encode | ios/Pods/nanopb/pb_encode.c:528-550 | The same routine counts or writes: counting succeeds if and only if the message is acceptable, writing if and only if it fits as well, and both agree on every size |
| PbEncoders.GetEncodedSize | ios/Pods/nanopb/pb_encode.c:567-577 | Counting finds the number of bytes that writing emits |
| PbEncoders.EncodeToBuffer | ios/Pods/nanopb/pb_encode.c:528-550 | Writing to a buffer succeeds if and only if the counted size is at most the size of the buffer |
| PbUnknownFields.WireTypeTells | ios/Pods/nanopb/pb_encode.c:675-707 | Wire type 5 stands before exactly four bytes, 1 before exactly eight, 2 before a length and that many bytes, 0 before a varint |
| PbUnknownFields.ValueSkips | ios/Pods/nanopb/pb_decode.c:278-335 | For every typed value, skipping by its wire type skips its bytes and nothing else |
| PbUnknownFields.UnknownFieldsAreSkipped | ios/Pods/nanopb/pb_decode.c:987-1000 | A decoder whose descriptor lacks any of the fields of a message gets the others back, if and only if their strings have room for their final zeros |
| PbDecoders.Varint32Back | ios/Pods/nanopb/pb_decode.c:187-252 | Numbers of 32 bits read back |
| PbDecoders.SignExtended | ios/Pods/nanopb/pb_decode.c:187-252 | A number of 64 bits that extends the sign of a negative 32-bit number is read as that |
| PbDecoders.TooManyBits | ios/Pods/nanopb/pb_decode.c:187-252 | Any greater number below 2^63 is refused |
| PbDecoders.PlainBack | ios/Pods/nanopb/pb_decode.c:1285-1570 | Numbers of all kinds and sizes, bytes and closed strings read back |
| PbDecodeLoop.FieldIter.FindTag | ios/Pods/nanopb/pb_common.c:87-104 | From wherever the iterator stands, once around finds the field with the tag if there is one |
| PbDecodeLoop.PassesIff | ios/Pods/nanopb/pb_decode.c:1019-1076 | The test of the bitmap passes if and only if none of the first 64 required fields is missing |
| PbDecodeLoop.DecodeNoinit | ios/Pods/nanopb/pb_decode.c:934-1082 | Over any bytes the loop computes the decoding that is defined field by field, wherever the iterator stands |
| PbDecodeLoop.Decode | ios/Pods/nanopb/pb_decode.c:1084-1097 | The decoding into a struct that is reset first |
| PbRoundTrip.MessageReadsBack | ios/Pods/nanopb/pb_decode.c:934-1082 | Of any message within the limits of its struct and of 32-bit lengths, at any depth: decoding what the encoder wrote gives the message back if and only if every string that was written has room for its final zero; otherwise decoding fails |
| PbRoundTrip.DefaultIff | ios/Pods/nanopb/pb_encode.c:240-337 | The test for proto3 defaults finds exactly the values that decoding starts from, unless a required field or a fixed array is inside |
| PbSafety.MessageIsHeld | ios/Pods/nanopb/pb_decode.c:934-1082 | Over any bytes, at any depth: what is decoded stays within the struct, with numbers within their width, arrays within their bounds, and bytes and strings within their storage |
| PbSafety.DecodedCanBeEncoded | ios/Pods/nanopb/pb_decode.c:1084-1097 | Whatever was decoded from any bytes is acceptable to the encoder |

## Left out

Conditions that contracts state openly:

- DbImpl.DBImpl.FinishCompaction: promises a valid object exactly when the outputs fit, because a flush into the gap of a manual compaction does break the order of a level (`GapWitness.GapLosesWrite`); the condition is exact, and automatic compactions meet it.
- EngineRuns.ReadersGetTheLastWrite: holds for runs whose compactions resurrect nothing, because the code does not call AddBoundaryInputs on the lower inputs (`EngineWitnesses.DeletedValueReturns`); for a single compaction the condition is exact (`EngineFinish.FinishPreservesReadsIff`).
- DbImpl.DBImpl.Write: takes a batch that is not empty and a last number below 2^56 - 1, the bound of the format that the code does not check; the queue of writers, logging and syncing are in `WriteQueues`.
- CompactionReads.CompactionPreservesReadsIff: asks for an oldest snapshot below 2^56 - 1, for the same reason (`SentinelFailsAtMaximum`).
- LogRecovery.RecoversOneAtATime: asks that records were lost in order across live logs, because switching logs does not sync the old one (`LaterSyncedWriteSurvivesAlone`).
- PbRoundTrip.MessageReadsBack: asks for lengths below 2^32, field numbers below 2^29 that differ, and a union with one member at most.
- Blocks.RoundTrip: promises nothing for blocks of 4 GiB or more, whose offsets do not fit their 32-bit words.
- TableLookups.Table.InternalGet: is proved for files below 4 GiB.
- SkipLists.Race: takes each load and store as one step in program order; acquire and release are not modelled.
- LogFiles.ReadLog: is proved for logs that are whole or cut; of a log that was damaged otherwise, `LogResync` treats what becomes of its fragments, but not how blocks are searched for them. An initial offset other than zero is not part of this model.
- Manifests.RecoverAfterCrash: starts from the manifest of a new database; a manifest that begins with a snapshot of an older version is not part of this model.

Not modelled:

- Storage engine: compaction scores, seek statistics and read sampling choose when and where to compact; every choice is allowed. The bytes that a table of some entries takes, unfinished and finished, are parameters of the compaction loop.
- Storage engine: numbers of output files are taken when a compaction finishes, not one by one while it runs.
- Storage engine: I/O errors, failed compactions, deleting obsolete files, background scheduling and the waiting in MakeRoomForWrite.
- Storage engine: table files are their sorted entries with their bounds; that a table file is read as such is the subject of `TableLookups`, for byte keys.
- Storage engine: checks that are on in debug builds only, among them the one for overlapping files in SaveTo.
- `DBIter` runs over a cursor on the sorted union of all sources; that the merging iterator is one is the subject of `Merger`. Likewise a two-level iterator inside `InputIterators` is a cursor, by `TwoLevel`.
- Iterators: error states, and cleanup functions.
- Write queue: only syncing may fail, appending a record succeeds; what happens under the mutex without letting go of it is one step.
- Log writer and table builder: failing appends.
- Tables: one filter policy, with the name of the built-in one; compression is the identity; the block cache is not consulted.
- Corrupted blocks, keys and tables.
- Hash functions (`BloomHash`, the hash of the cache) are parameters; the number of probes is given instead of computed from bits per key in floating point.
- LRU cache: the sixteen shards and their mutexes, values and the type of their deleters; a deleter is counted, not run.
- Skip list: the random height is a parameter; the arena.
- Timers: callbacks that start or stop other timers; closing handles.
- Thread pool: creation of the threads, forking, the two mutexes of one loop; uv_cancel is called by the loop thread only, and requests are numbers.
- CRC-32C: hardware instructions, and the literal tables, which are defined by their recurrence.
- nanopb: callbacks, extensions, pointer fields and malloc, sizes beyond size_t, error texts; a field that has a default value other than zero; a message without fields that meets tag number 0; a 32-bit varint of more than 37 bytes, where the shift counter of 8 bits wraps around; wire input that leaves a fixed array out, which the code leaves uninitialized.
- Comparators other than the bytewise one.
