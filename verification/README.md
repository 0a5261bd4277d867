# The LevelDB storage engine, modelled and verified

This Dafny project models the log-structured storage engine in
`utils/leveldb-patched-windows` and proves what its readers rely on. All paths in this
file are relative to the repository, and `db/` and `table/` stand for the directories of
that name in the engine.

## What is modelled

**The LSM tree** (`DbFormat`, `Tables`, `VersionSearch`, `DropRules`, `CompactionInputs`,
`OutputCuts`, `CompactionWork`, the `Lsm...` modules, `InputRuns`, `InputIterators`, `DbImpl`). A
database is a memtable, an immutable memtable, seven levels of table files, snapshots, and
at most one compaction whose inputs have been chosen and whose outputs have not been
installed yet. `LsmRuns` is the state machine: writes, memtable switches, flushes,
snapshots, trivial moves, and compactions that start and finish at different times, with
anything in between. The invariant (`LsmState.Inv`) says that levels are sorted and
disjoint, that data in a smaller level is newer, and that every write that a reader at or
above the oldest read point may still need is held, or is a deletion with nothing left to
hide. Reads then equal what the operations of the run mean, a put setting its key and a
deletion removing it in a plain map (`LsmRuns.SafeRunsReadRight`). `LsmSnapshots` says what
a held snapshot keeps.
`LsmExact` gives the exact conditions for the steps that can do harm. `LsmCrash` and
`LsmCrashRuns` add crashes at any point: besides the invariant, every step keeps the same
invariant for the database that the files alone make, and recovery from any surviving part
of the log leads back to the invariant for a prefix of the history. `CrashRecovery` joins
this to the bytes of the log.
`DbImpl.DBImpl` is the database as an object with fields, its snapshots a `SnapshotList`;
its methods run the loops of the source (level placement, input selection, merging, drop
rules, the cutting of output files) and are proved to make exactly the steps of the state
machine. `OutputCuts` says where outputs are closed and what that is for.

**Iterators** (`Merger`, `MergeDuplicates`, `DbIter`, `DbIterMeaning`). Both iterators are
objects that keep a direction and switch it; each is proved to be a cursor, the merging
iterator over the sorted union of its children, the database iterator over the user keys
whose newest visible entry is a value. `DbIterMeaning` ties those stops to the plain map.

**The write path and recovery** (`Coding`, `KeyCoding`, `LogFormat`, `LogWriter`,
`LogReader`, `LogReplay`, `LogChecksums`, `LogLosses`, `WriteBatch`, `WriteQueue`, `Recovery`, `VersionEdit`,
`VersionBuilder`, `Manifest`, `VersionSetObject`, `CrashRecovery`). Bytes are modelled as
bytes. The log
reader is proved equal to a function of the file for every file, and that function is then
shown to return, for every prefix of a written log, exactly the records that are wholly in
it. For files damaged in any way, `LogChecksums` shows that what is returned stands in the
file behind its own checksum, and `LogLosses` that nothing read is lost without a report.
Group commit is a state machine over arriving writers. The manifest is replayed by one
builder, which is proved equal to applying the edits one at a time.

**The skip list** (`SkipLists`, `SkipListReaders`, `SkipListObject`). Every load and store
is a step; one writer and any number of readers interleave in any way.

**Blocks** (`BlockFormat`, `BlockBuilder`, `BlockIter`, `FilterBlock`) and the snapshot
list (`SnapshotList`).

User keys: the LSM modules represent a user key by its place in the comparator's total
order, a real number. Byte strings are countable and every countable total order embeds in
the rationals, so this covers any comparator. The codecs work on byte strings and take the
comparator as a function from keys to places; `KeyCoding.CompareIsLess` connects the two.
The checksum function and the filter policy are parameters.

## Where the code does less than its comments say

- **Split user keys.** The comments in `db/db_impl.cc` and `db/version_set.cc` rely on
  entries never hopping across levels. A compaction may cut its output between two versions
  of one user key that snapshots keep both (`db/db_impl.cc:906-913` and `973-980`), and input
  selection does not pull in the neighbouring file. `LsmWitness.SplitKeyReadsOldValue` is a
  run of `CompactRange` over all keys, with real table sizes, after which a read returns an
  old value. `LsmBegin.SplitsHarmlessly` says which compactions do no harm. A file left
  behind at the compaction's own level that continues an input is harmless only if the
  newest input entry for that user key is a deletion that the second drop rule removes and
  that readers see overwritten. A file left behind at the output level ends up in one level
  with the other half; there only a removed deletion can do harm, if readers do not see it
  overwritten. `LsmExact.CompactionIsSafeIff` proves that this is exactly the condition, for
  every permitted compaction; `LsmExact.MoveIsSafeIff` is the same for trivial moves.
  Without snapshots no key is ever split, by automatic or manual compactions
  (`LsmSnapshotFree.SnapshotFreeRunsAreSafe`).
- **Deletions that only the memtable overwrites.** If what overwrites such a dropped
  deletion is in memory, live readers see no difference, but a crash may lose it and bring
  back what had been deleted. `LsmCrashRuns.CompactionIsDurableIff` has the exact condition
  for recovery: the one above, for what the files alone hold.
- **Manual compactions with gaps.** While a compaction runs, `CompactMemTable` places a new
  table by looking at current files only. The inputs of an automatic compaction leave no gap
  between them, so the table never falls among the outputs. The inputs of a manual compaction
  may leave a gap; `LsmGapWitness.ManualCompactionCanOverlapAFlush` is such a run.
  `LsmExact.FlushIsSafeIff` gives the exact condition in terms of what is known when the
  memtable is flushed, before the outputs are cut: the table must not go to the output
  level between entries that the compaction keeps.
- **Compaction pointers are set ahead of the manifest.** Input selection changes the pointer
  in memory at once (`db/version_set.cc:1356-1361`), so a flush and a crash before the
  compaction is logged bring the previous pointer back. The manifest leads to the logged
  pointers; `VersionSetObject.VersionSet.CrashKeepsLoggedPointers` says which may differ.
- **The last sequence number.** With every sequence number in use, the first drop rule
  applies to every entry: the number carried for a new user key is then not above the
  smallest snapshot (`db/db_impl.cc:925-933`). `CompactionWork.ShouldDrop` says so.
- **Types 5 and 6 in a log.** The reader returns the type byte of a record in the same
  number as its own marks for the end of the file and for a bad record
  (`db/log_reader.h:77-85`), so such a byte ends the file or drops a record without a
  report. `LogLosses.NothingIsLostSilently` counts everything else.
- **`VersionEdit::Clear` keeps the compaction pointers**, so only a fresh edit object is
  rebuilt by `DecodeFrom`; `VersionEdit.UsedEditRoundTripIff` gives the exact condition.

## Model

| member | source | states |
|---|---|---|
| LsmRuns.SafeRunsReadRight | utils/leveldb-patched-windows/db/db_impl.cc:1085-1130 | after every run of writes, memtable switches, flushes, snapshots, trivial moves and compactions, manual or not, that splits user keys only harmlessly and flushes into no gap, a lookup at the last sequence number or at a live snapshot finds what the operations of the run up to there mean: a map in which a put sets its key and a deletion removes it |
| LsmRuns.RunsKeepInv | utils/leveldb-patched-windows/db/db_impl.cc:655-738 | every such run keeps the whole invariant: sorted and disjoint levels, newer data above older, unique file numbers, no needed write lost, and a consistent compaction in progress |
| LsmRuns.NextKeepsInv | utils/leveldb-patched-windows/db/db_impl.cc:655-738 | one step of any kind keeps the invariant, also between the start and the end of a compaction; a compaction may leave the second half of a split key behind as long as no reader can notice |
| LsmRuns.MapIsOps | utils/leveldb-patched-windows/db/db_impl.cc:1447-1457 | after every prefix of the writes of a run, the map of the history is the operations applied one after another to an empty map |
| LsmSteps.WritingApplies | utils/leveldb-patched-windows/db/write_batch.cc:117-124 | appending the entries of any batch to any history changes its map as the operations say: a put sets its key, a deletion removes it |
| LsmSnapshots.SnapshotIsHeld | utils/leveldb-patched-windows/db/db_impl.cc:1151-1159 | from the moment a snapshot is taken until that very one is dropped, whatever else happens and whichever others are dropped, it is in the list with the sequence number of that moment |
| LsmSnapshots.SnapshotReadsItsMap | utils/leveldb-patched-windows/db/db_impl.cc:1085-1130 | as long as a snapshot is held, after any safe run, a read at it finds what the operations made before it was taken mean |
| LsmSnapshotFree.SnapshotFreeRunsAreSafe | utils/leveldb-patched-windows/db/version_set.cc:1297-1403 | without snapshots no compaction, automatic or manual, with or without gaps between its inputs, ever splits a user key between two files of a level: only flushes into a gap have to be excluded |
| LsmSnapshotFree.SnapshotFreeRunsReadRight | utils/leveldb-patched-windows/db/db_impl.cc:1085-1130 | so every such run reads exactly what its operations mean |
| LsmSnapshotFree.FittingFileIsApart | utils/leveldb-patched-windows/db/db_impl.cc:893-903 | a file that overlaps no input of a compaction and lies before or after an output shares no user key with it |
| LsmSnapshotFree.AutomaticRunsAreSafe | utils/leveldb-patched-windows/db/version_set.cc:1243-1362 | without manual compactions the flush guard holds by itself too |
| LsmSnapshotFree.AutomaticRunsReadRight | utils/leveldb-patched-windows/db/db_impl.cc:1085-1130 | so a run without snapshots and manual compactions reads exactly what its operations mean, with no further condition |
| LsmSnapshotFree.AutomaticFlushFits | utils/leveldb-patched-windows/db/version_set.cc:493-519 | a flush that happens while an automatic compaction runs never lands among the compaction's outputs, although placement looks at current files only |
| LsmSnapshotFree.ApartInputsNotSplit | utils/leveldb-patched-windows/db/version_set.cc:1297-1362 | when no user key is split between files, input selection never leaves behind a file that continues an input |
| LsmExact.CompactionIsSafeIff | utils/leveldb-patched-windows/db/db_impl.cc:884-991 | over every permitted compaction: starting and finishing it keeps the invariant if and only if, for every file left behind that continues an input, at the own level the newest input entry for the key is a dropped deletion that readers see overwritten, and at the output level every dropped deletion of the key is overwritten for the readers of the smallest snapshot |
| LsmExact.LostDeletionBreaksReads | utils/leveldb-patched-windows/db/db_impl.cc:934-945 | if a deletion that some reader needs is dropped although an older entry stays, a needed write is lost |
| LsmExact.ContinuationComesLast | utils/leveldb-patched-windows/db/version_set.cc:1297-1305 | where a file left behind at the output level continues an input, its first entry is older than every input entry for that key |
| LsmExact.MoveIsSafeIff | utils/leveldb-patched-windows/db/db_impl.cc:686-703 | a trivial move keeps the invariant if and only if no file left behind continues the last user key of the file that moves |
| LsmExact.StartedCutsInstall | utils/leveldb-patched-windows/db/db_impl.cc:906-981 | when a compaction starts, its outputs can be installed into proper levels wherever they are going to be cut |
| LsmExact.FlushIsSafeIff | utils/leveldb-patched-windows/db/db_impl.cc:893-903 | a flush in the middle of a compaction leaves every way of cutting the outputs open if and only if the new file does not go to the output level between entries that the drop rules keep |
| LsmExact.GaplessFlushIsSafe | utils/leveldb-patched-windows/db/version_set.cc:493-519 | when the inputs leave no gap, the kept entries never surround a flushed file |
| LsmWitness.SplitKeyReadsOldValue | utils/leveldb-patched-windows/db/db_impl.cc:536-551 | a concrete run: with one snapshot and two values as large as an output file, the two passes of CompactRange over levels 0 and 1 cut between the versions of a key and then take only the newer half down, and a read returns the old value |
| LsmGapWitness.ManualCompactionCanOverlapAFlush | utils/leveldb-patched-windows/db/db_impl.cc:893-903 | a concrete run without snapshots: while CompactRange merges files with a gap between them, a memtable with a key in the gap is flushed to the output level; the levels then overlap and the binary search for the key stops at the wrong file |
| LsmState.ReadsAreRight | utils/leveldb-patched-windows/db/db_impl.cc:1085-1130 | in any state with the invariant, the newest held entry at or below a usable sequence number says what the map after that many writes holds |
| LsmSteps.WriteOneKeepsInv | utils/leveldb-patched-windows/db/memtable.cc:82-106 | adding an entry under the next sequence number keeps the invariant for the longer history |
| LsmSteps.SwitchKeepsInv | utils/leveldb-patched-windows/db/db_impl.cc:1330-1352 | making the full memtable immutable keeps the invariant |
| LsmSteps.TakeSnapshotKeepsInv | utils/leveldb-patched-windows/db/db_impl.cc:1151-1154 | a new snapshot never lowers what readers may need |
| LsmSteps.ReleaseSnapshotKeepsInv | utils/leveldb-patched-windows/db/db_impl.cc:1156-1159 | releasing any snapshot, not just the oldest, keeps the invariant and the others |
| LsmFlush.FlushedFileIsPlaced | utils/leveldb-patched-windows/db/version_set.cc:493-519 | a table pushed below level 0 overlaps nothing at its level or above it |
| LsmFlush.FlushKeepsInv | utils/leveldb-patched-windows/db/db_impl.cc:503-534 | flushing the immutable memtable keeps the invariant, including that of a compaction in progress |
| LsmBegin.OlderBystander | utils/leveldb-patched-windows/db/version_set.cc:1297-1362 | a file left behind is newer than every input, except for the one user key of an input that it continues |
| LsmBegin.SelectedOutputsOlder | utils/leveldb-patched-windows/db/version_set.cc:1297-1362 | with harmless splits, what is left behind at the own level is newer than every output |
| LsmBegin.DroppedForAReason | utils/leveldb-patched-windows/db/db_impl.cc:931-945 | an input entry missing from the outputs is overwritten for every reader, or is an obsolete deletion with nothing older left, neither below nor in files left behind |
| LsmBegin.BeginMakesJobOk | utils/leveldb-patched-windows/db/db_impl.cc:884-984 | selection, merging, drop rules and cutting together give a compaction that may be installed |
| LsmBegin.MoveIsOk | utils/leveldb-patched-windows/db/db_impl.cc:686-693 | a trivial move is a compaction that drops nothing |
| LsmBegin.OutputFilesAreGood | utils/leveldb-patched-windows/db/db_impl.cc:959-981 | outputs cut at any places are sorted, disjoint as internal-key ranges, and have distinct new numbers |
| LsmInstall.InstallKeepsAges | utils/leveldb-patched-windows/db/version_set.cc:656-699 | replacing inputs by outputs keeps newer data in smaller levels |
| LsmInstall.InstallKeepsDisjoint | utils/leveldb-patched-windows/db/version_set.cc:702-748 | and keeps levels 1 and up sorted and disjoint |
| LsmInstall.InstallLosesOnlyDrops | utils/leveldb-patched-windows/db/version_set.cc:656-699 | an entry leaves the files only if it was an input and not an output |
| LsmFinish.FinishKeepsRetained | utils/leveldb-patched-windows/db/db_impl.cc:884-984 | no write that a reader at or above the oldest read point needs is lost by a compaction |
| LsmFinish.FinishKeepsInv | utils/leveldb-patched-windows/db/db_impl.cc:884-984 | installing a compaction's results keeps the invariant for the same history |
| LsmCrash.StepKeepsWorld | utils/leveldb-patched-windows/db/db_impl.cc:655-738 | every step keeps, besides the invariant, the same invariant for the database that the files alone make from the writes flushed so far |
| LsmCrash.CrashKeepsWorld | utils/leveldb-patched-windows/db/db_impl.cc:304-357 | after a crash, replaying any surviving end of the log into level-0 tables gives a database that satisfies the invariant for a prefix of the history, also when the manifest knows a larger last sequence number |
| LsmCrashRuns.CrashRunsReadRight | utils/leveldb-patched-windows/db/db_impl.cc:1085-1130 | after every run with crashes and recoveries anywhere in it, reads find what a plain map of the surviving writes holds |
| LsmCrashRuns.CompactionIsDurableIff | utils/leveldb-patched-windows/db/db_impl.cc:884-991 | a compaction keeps the database recoverable if and only if it splits user keys harmlessly with respect to what the files alone hold |
| LsmCrashRuns.SnapshotFreeCrashRunsReadRight | utils/leveldb-patched-windows/db/db_impl.cc:1085-1130 | without snapshots that condition holds by itself: reads are right whatever crashes there have been |
| CrashRecovery.CrashAtAnyByteIsRecovered | utils/leveldb-patched-windows/db/db_impl.cc:362-452 | if the log holds the writes since the last flush and is cut off at any byte, RecoverLogFile's tables and largest sequence number rebuild a database for a prefix of the history that satisfies the invariant, and its map is that of the flushed writes with the operations of the wholly logged batches applied |
| CrashRecovery.LoggedIsWritten | utils/leveldb-patched-windows/db/write_batch.cc:111-134 | what a logged group inserts, live or on replay, is what DBImpl::Write appends to the history for the same operations |
| CrashRecovery.RecoveredApplies | utils/leveldb-patched-windows/db/db_impl.cc:404-444 | replaying the first groups of a log changes the map as their operations say |
| DropRules.SurvivorsAreKept | utils/leveldb-patched-windows/db/db_impl.cc:921-948 | an entry survives if and only if neither drop rule applies to it |
| DropRules.OlderAreHidden | utils/leveldb-patched-windows/db/db_impl.cc:931-933 | once an entry at or below the smallest snapshot has been seen, every older one for its key is dropped |
| DropRules.OneSurvivorPerKey | utils/leveldb-patched-windows/db/db_impl.cc:931-933 | without snapshots at most one entry per user key survives |
| CompactionWork.RunningCompaction.IsBaseLevelForKey | utils/leveldb-patched-windows/db/version_set.cc:1434-1453 | asked about non-decreasing keys, the persistent level pointers give the answer of a scan of all files two levels down and deeper |
| CompactionWork.ShouldDrop | utils/leveldb-patched-windows/db/db_impl.cc:914-948 | the decision made from the carried key and sequence number is that of the drop rules; when the smallest snapshot is the largest sequence number there is, everything is dropped |
| CompactionWork.DoCompactionWork | utils/leveldb-patched-windows/db/db_impl.cc:868-991 | for every smallest snapshot, the loop over the merged input writes exactly the entries that are kept, in order, to non-empty files; a file is closed as soon as it is big enough or before a key that it must not pass, and nowhere else; no file goes on past such a key; every file has its size |
| CompactionWork.RunningCompaction.ShouldStopBefore | utils/leveldb-patched-windows/db/version_set.cc:1455-1475 | asked about every input key in turn, the running count of bytes says stop exactly where more than the limit has been passed two levels down since the last stop |
| OutputCuts.OverlapIsBounded | utils/leveldb-patched-windows/db/version_set.cc:1455-1475 | no output passes more than the limit of data two levels down |
| OutputCuts.StopsAreNeeded | utils/leveldb-patched-windows/db/version_set.cc:1468-1472 | from one stop, or the first key, to any later stop more than the limit is passed: outputs are not closed for less |
| CompactionWork.OutputsPassLittle | utils/leveldb-patched-windows/db/db_impl.cc:906-913 | so no output of the compaction loop passes more than the limit, whatever is dropped |
| CompactionInputs.GetRange | utils/leveldb-patched-windows/db/version_set.cc:1176-1195 | the smallest and largest internal keys of the files, and the least user-key range that covers them |
| CompactionInputs.SetupOtherInputs | utils/leveldb-patched-windows/db/version_set.cc:1297-1362 | the second input is exactly the files of the next level that overlap the hull of the first; the first grows exactly when it can without pulling in more of the next level or exceeding the size limit; no gap appears; grandparents are exactly the overlapping files two levels down; the compaction pointer is the largest key of the first input |
| CompactionInputs.TryExpand | utils/leveldb-patched-windows/db/version_set.cc:1309-1341 | the inputs grow if and only if they can, to the one result possible, losing nothing and staying closed |
| CompactionInputs.GrowsOneWay | utils/leveldb-patched-windows/db/version_set.cc:1309-1341 | there is only one way for the inputs to grow |
| CompactionInputs.PickFile | utils/leveldb-patched-windows/db/version_set.cc:1257-1269 | the first file past the compaction pointer, or the first file of the level if none is |
| CompactionInputs.PickCompaction | utils/leveldb-patched-windows/db/version_set.cc:1243-1295 | a compaction is picked if and only if there is a reason to, at the level the reason names, from the first file past the compaction pointer or the file sought too often, well selected and without gaps |
| CompactionInputs.CompactRange | utils/leveldb-patched-windows/db/version_set.cc:1364-1403 | a manual compaction is picked if and only if some file of the level overlaps the range; it begins with the overlapping files, above level 0 only as many as reach the size of an output file |
| CompactionInputs.CutToSize | utils/leveldb-patched-windows/db/version_set.cc:1377-1389 | the files up to the first with which their total size reaches the limit |
| VersionSearch.FindFile | utils/leveldb-patched-windows/db/version_set.cc:77-96 | binary search splits the files exactly at the first one whose largest key is not before the key |
| VersionSearch.SomeFileOverlapsRange | utils/leveldb-patched-windows/db/version_set.cc:112-142 | true if and only if some file overlaps the range, with and without binary search |
| VersionSearch.GetOverlappingInputs | utils/leveldb-patched-windows/db/version_set.cc:522-563 | the restarts end; above level 0 the result is exactly the overlapping files, at level 0 those that overlap the least range that contains the given one and that no file straddles |
| VersionSearch.GrowKeepsLeast | utils/leveldb-patched-windows/db/version_set.cc:540-560 | each restart grows the range no further than every stable range, and by a file boundary |
| VersionSearch.PickLevelForMemTableOutput | utils/leveldb-patched-windows/db/version_set.cc:493-519 | the deepest level up to 2 reachable by pushes that overlap nothing at the next level and little two levels down |
| VersionSearch.SearchLevelZero | utils/leveldb-patched-windows/db/version_set.cc:346-361 | the first hit among the files by descending number is the newest entry of level 0 |
| VersionSearch.SearchSortedLevel | utils/leveldb-patched-windows/db/version_set.cc:362-378 | the one file that binary search finds holds the newest entry of the level, or none does |
| VersionSearch.Get | utils/leveldb-patched-windows/db/version_set.cc:323-420 | the search reports the first level with an entry at or below the sequence number, and nothing only if no level has one |
| VersionSearch.SearchFindsNewest | utils/leveldb-patched-windows/db/version_set.cc:323-420 | when newer entries are in smaller levels, that is the newest entry of all files |
| Tables.SeekEntryIsNewest | utils/leveldb-patched-windows/db/memtable.cc:108-143 | seeking to the lookup key and comparing user keys finds the newest entry at or below the sequence number, or there is none |
| Tables.InsertKeepsSorted | utils/leveldb-patched-windows/db/memtable.cc:82-106 | adding an entry keeps a run in internal-key order and its other entries |
| DbFormat.LessIsTotalOrder | utils/leveldb-patched-windows/db/dbformat.cc:50-66 | the internal-key order is a strict total order on user key, sequence number and type |
| KeyCoding.ParseUndoesEncode | utils/leveldb-patched-windows/db/dbformat.h:176-186 | parsing an encoded internal key gives it back |
| KeyCoding.EncodeUndoesParse | utils/leveldb-patched-windows/db/dbformat.h:176-186 | a byte string that parses is the encoding of what it parses to |
| KeyCoding.TrailerLayout | utils/leveldb-patched-windows/db/dbformat.cc:13-22 | the last eight bytes of an encoded key are its type and then its sequence number, low byte first |
| KeyCoding.CompareIsLess | utils/leveldb-patched-windows/db/dbformat.cc:50-66 | the comparator on encoded keys is the order used everywhere else, in both directions |
| KeyCoding.LookupKeySplitsVersions | utils/leveldb-patched-windows/db/dbformat.cc:121-138 | the lookup key comes after exactly the versions of its user key that are newer than its sequence number |
| KeyCoding.DecodeUndoesEncodeEntry | utils/leveldb-patched-windows/db/memtable.cc:82-106 | reading a memtable entry gives back the key and value that Add stored, whatever follows it |
| DbImpl.DBImpl.Get | utils/leveldb-patched-windows/db/db_impl.cc:1085-1130 | memtable, immutable memtable and files together return the value the plain map holds at the snapshot or at the last write |
| DbImpl.DBImpl.NewIterator | utils/leveldb-patched-windows/db/db_impl.cc:1043-1072 | the new iterator walks over exactly the held entries, sorted, at the right sequence number |
| DbImpl.DBImpl.Write | utils/leveldb-patched-windows/db/write_batch.cc:111-134 | a batch appends its operations to the history under consecutive sequence numbers, and the map changes as the operations say, one after another |
| DbImpl.DBImpl.GetSnapshot | utils/leveldb-patched-windows/db/db_impl.cc:1151-1154 | a new snapshot of the last sequence number joins the linked list as the newest; nothing else of the state changes |
| DbImpl.DBImpl.ReleaseSnapshot | utils/leveldb-patched-windows/db/db_impl.cc:1156-1159 | exactly the given snapshot leaves the list, wherever it is, the others stay in order; nothing else of the state changes |
| DbImpl.DBImpl.SmallestSnapshot | utils/leveldb-patched-windows/db/db_impl.cc:876-880 | the oldest read point: the oldest snapshot's number, or the last sequence number without snapshots |
| DbImpl.DBImpl.CompactMemTable | utils/leveldb-patched-windows/db/db_impl.cc:503-534 | makes the flush step, with a new file number in any case; while a compaction of the database's own choice runs, or none, no guard is needed |
| DbImpl.DBImpl.BackgroundCompaction | utils/leveldb-patched-windows/db/db_impl.cc:655-738 | flushes if there is an immutable memtable; otherwise a manual compaction, or one picked for size or seeks, becomes a step with the inputs the source chooses: a move exactly if it is not manual, has one input file, and the files two levels down that overlap it have little data, and a compaction with rightly cut outputs otherwise; the object invariant is kept whenever the step is guarded |
| DbImpl.DBImpl.DoCompaction | utils/leveldb-patched-windows/db/db_impl.cc:868-984 | works out a compaction and makes its starting step, for any well selected inputs; its outputs are closed where they have to be and nowhere else, and none passes too much data two levels down |
| DbImpl.DBImpl.InstallCompactionResults | utils/leveldb-patched-windows/db/db_impl.cc:847-857 | makes the finishing step of the state machine |
| DbImpl.StepIsOk | utils/leveldb-patched-windows/db/db_impl.cc:655-738 | every step keeps the object invariant, and without snapshots also that no user key is split |
| DbImpl.FlushStepIsOk | utils/leveldb-patched-windows/db/db_impl.cc:893-903 | a guarded flush keeps the object invariant, and the guard holds while a compaction without gaps runs |
| InputIterators.AddIterators | utils/leveldb-patched-windows/db/version_set.cc:225-245 | the runs hold exactly the entries of all files, and no key is in two of them |
| InputIterators.MakeInputIterator | utils/leveldb-patched-windows/db/version_set.cc:1210-1241 | the merged input is exactly the entries of the input files, in order |
| Merger.MergingIterator.Next | utils/leveldb-patched-windows/table/merger.cc:59-83 | one step forward in the sorted union, also after a step backward |
| Merger.MergingIterator.Prev | utils/leveldb-patched-windows/table/merger.cc:85-112 | one step backward in the sorted union, also after a step forward |
| Merger.MergingIterator.Seek | utils/leveldb-patched-windows/table/merger.cc:51-57 | stops at the first key of the union at or after the target |
| Merger.MergingIterator.SeekToFirst | utils/leveldb-patched-windows/table/merger.cc:35-41 | stops at the first key of the union |
| Merger.MergingIterator.SeekToLast | utils/leveldb-patched-windows/table/merger.cc:43-49 | stops at the last key of the union |
| Merger.SmallestIsNext | utils/leveldb-patched-windows/table/merger.cc:155-168 | the smallest of the children's keys is the next key of the union |
| Merger.LargestIsPrevious | utils/leveldb-patched-windows/table/merger.cc:170-183 | the largest of the children's keys is the previous key of the union |
| MergeDuplicates.MergeForward | utils/leveldb-patched-windows/table/merger.cc:35-83 | moving forward only, with keys in several children, gives the sorted multiset union of the children |
| DbIter.DBIter.Next | utils/leveldb-patched-windows/db/db_iter.cc:146-171 | moves to the next user key whose newest visible entry is a value, also after Prev |
| DbIter.DBIter.Prev | utils/leveldb-patched-windows/db/db_iter.cc:205-230 | moves to the previous such user key, also after Next |
| DbIter.DBIter.Seek | utils/leveldb-patched-windows/db/db_iter.cc:274-286 | stops at the first such user key at or after the target |
| DbIter.DBIter.SeekToFirst | utils/leveldb-patched-windows/db/db_iter.cc:288-297 | stops at the first such user key |
| DbIter.DBIter.SeekToLast | utils/leveldb-patched-windows/db/db_iter.cc:299-304 | stops at the last such user key |
| DbIter.DBIter.ScanForward | utils/leveldb-patched-windows/db/db_iter.cc:173-203 | skipping hidden and deleted entries finds the first stop |
| DbIter.DBIter.ScanBackward | utils/leveldb-patched-windows/db/db_iter.cc:232-272 | the entry saved while scanning backward is the last stop before the start |
| DbIter.DBIter.Key | utils/leveldb-patched-windows/db/db_iter.cc:66-69 | the key of the current stop in both directions |
| DbIterMeaning.StopsAreInMap | utils/leveldb-patched-windows/db/db_iter.cc:146-304 | every stop is a binding of the plain map at the iterator's sequence number |
| DbIterMeaning.MapIsStoppedAt | utils/leveldb-patched-windows/db/db_iter.cc:146-304 | every binding of that map has its stop |
| DbIterMeaning.StopsAscend | utils/leveldb-patched-windows/db/db_iter.cc:146-304 | stops have strictly increasing user keys |
| Coding.EncodeVarint | utils/leveldb-patched-windows/util/coding.cc:81-90 | the loop writes the base-128 form of the number |
| Coding.GetVarintPtr | utils/leveldb-patched-windows/util/coding.cc:143-158 | the loop reads at most the given number of bytes and keeps the low bits of the number |
| Coding.Varint32RoundTrip | utils/leveldb-patched-windows/util/coding.cc:131-141 | reading a 32-bit varint gives the number and what follows it |
| Coding.Varint64RoundTrip | utils/leveldb-patched-windows/util/coding.cc:160-170 | the same for 64 bits |
| Coding.LengthPrefixedRoundTrip | utils/leveldb-patched-windows/util/coding.cc:182-192 | reading a length-prefixed slice gives it and what follows it |
| Coding.FixedRoundTrip | utils/leveldb-patched-windows/util/coding.cc:9-33 | decoding a fixed-width number undoes encoding it |
| Coding.DecodeFixedRoundTrip | utils/leveldb-patched-windows/util/coding.cc:9-33 | encoding undoes decoding, so the coding is one to one |
| Coding.UnmaskUndoesMask | utils/leveldb-patched-windows/util/crc32c.h:31-40 | unmasking a stored checksum gives the checksum |
| Coding.MaskUndoesUnmask | utils/leveldb-patched-windows/util/crc32c.h:31-40 | masking undoes unmasking, so no two checksums are stored alike |
| Coding.MaskRotates | utils/leveldb-patched-windows/util/crc32c.h:31-34 | before the constant is added, masking moves bit i + 15 (modulo 32) to bit i |
| Coding.FixedAt | utils/leveldb-patched-windows/util/coding.cc:9-33 | byte i of a fixed-width number holds its bits from 8 * i on |
| Coding.VarintAt | utils/leveldb-patched-windows/util/coding.cc:47-90 | byte i of a varint holds the seven bits from 7 * i on, and its high bit says whether more bytes follow |
| Coding.VarintIsShort | utils/leveldb-patched-windows/util/coding.cc:47-90 | a varint has no more bytes than its number needs |
| Coding.ParseTakesFew | utils/leveldb-patched-windows/util/coding.cc:110-158 | reading a varint takes no more than the given number of bytes, up to the first one without its high bit |
| LogWriter.Writer.AddRecord | utils/leveldb-patched-windows/db/log_writer.cc:27-73 | the loop appends exactly the trailer and fragments that the format prescribes at this place of the file |
| LogWriter.Writer.AddPiece | utils/leveldb-patched-windows/db/log_writer.cc:36-70 | one round fills the trailer of a block that has no room for a header, and emits as much as fits |
| LogReader.Reader.ReadPhysicalRecord | utils/leveldb-patched-windows/db/log_reader.cc:181-263 | block reads, trailers, end of file and bad records are handled as a function of the file and a position says, for every file |
| LogReader.Reader.ReadRecord | utils/leveldb-patched-windows/db/log_reader.cc:59-164 | the fragment automaton returns, reports and advances as that function says, for every file |
| LogReplay.ParseWritten | utils/leveldb-patched-windows/db/log_reader.cc:208-261 | a whole physical record at the front of the buffer yields its type and fragment |
| LogReplay.EmitIsRead | utils/leveldb-patched-windows/db/log_reader.cc:59-164 | from any point inside a record, the reader returns the record if its last fragment is wholly in the file, and otherwise ends quietly |
| LogReplay.PrefixIsReplayed | utils/leveldb-patched-windows/db/log_reader.cc:59-263 | for every list of records and every byte prefix of their log, the reader returns exactly the records that lie wholly in the prefix, then end of file, and reports nothing |
| LogReplay.LogIsReplayed | utils/leveldb-patched-windows/db/log_writer.cc:27-100 | the whole log reads back as the records that were written |
| LogFormat.PhysicalLayout | utils/leveldb-patched-windows/db/log_writer.cc:74-92 | a physical record is the masked checksum of type and data, the length low byte first, the type and the data |
| LogFormat.PieceStaysInBlock | utils/leveldb-patched-windows/db/log_writer.cc:36-70 | no fragment leaves its block, and a block whose rest is too short for a header is filled with zeros |
| LogChecksums.FragmentStands | utils/leveldb-patched-windows/db/log_reader.cc:181-262 | with checksums on, for every file: a fragment that is read stands in the file as a writer writes it, behind its own checksum |
| LogChecksums.ReturnedRecordStands | utils/leveldb-patched-windows/db/log_reader.cc:59-164 | with checksums on, for every file: a record that is returned stands in the file whole, or as a first fragment, middle ones and a last one in this order, each behind its own checksum |
| LogLosses.NothingIsLostSilently | utils/leveldb-patched-windows/db/log_reader.cc:59-164 | for every file: the bytes of all fragments read and of all blocks given up with a report are exactly the bytes returned, reported, or part of the record cut off at the end; types 5 and 6 in a file are taken for the reader's own marks |
| LogLosses.GivenUpIsReported | utils/leveldb-patched-windows/db/log_reader.cc:208-249 | when the rest of a block is given up, all of it is reported, except for zeros of preallocated space and records that call themselves bad |
| LogLosses.ZerosAreSkipped | utils/leveldb-patched-windows/db/log_reader.cc:227-233 | zeros from any place to the end of a file, as preallocation leaves them, are skipped without a record or a report |
| LogLosses.StrayEndMarkHidesTheRest | utils/leveldb-patched-windows/db/log_reader.h:77-85 | a well-formed record of type 5 at the front of a file hides all the rest of it without a report, whatever it is |
| WriteBatch.InsertInto | utils/leveldb-patched-windows/db/write_batch.cc:42-134 | for every byte string: the parsed operations, up to the first error, go to the memtable in order under consecutive sequence numbers, a put with its key and value, a deletion with its key and no value; what was there stays, and the error is reported |
| WriteBatch.IterateUndoesRep | utils/leveldb-patched-windows/db/write_batch.cc:42-80 | iterating over a batch gives its operations in order and no error |
| WriteBatch.HeaderOfRep | utils/leveldb-patched-windows/db/write_batch.cc:82-96 | the header of a batch holds its sequence number and its count |
| WriteBatch.RecordLayout | utils/leveldb-patched-windows/db/write_batch.cc:98-109 | a record is its tag, 1 for a value and 0 for a deletion, and its length-prefixed strings, key first |
| WriteBatch.CountIsChecked | utils/leveldb-patched-windows/db/write_batch.cc:75-79 | a batch that iterates without an error holds as many operations as its header says |
| WriteBatch.CountIsSigned | utils/leveldb-patched-windows/db/write_batch.cc:82-84 | the count is read as a signed number: the highest bit of its last byte makes it negative |
| WriteBatch.WriteBatch.Put | utils/leveldb-patched-windows/db/write_batch.cc:98-103 | the representation is that of the operations with one more |
| WriteBatch.WriteBatch.Delete | utils/leveldb-patched-windows/db/write_batch.cc:105-109 | the representation is that of the operations with one more |
| WriteBatch.WriteBatch.Append | utils/leveldb-patched-windows/db/write_batch.cc:141-145 | the representation is that of both lists of operations, under the first batch's sequence number |
| Recovery.RecoverLogFile | utils/leveldb-patched-windows/db/db_impl.cc:404-447 | the replay loop gives the tables, the largest sequence number and the status that a function of the file says, for every file, full memtables and paranoid checks included |
| Recovery.ApplyGroup | utils/leveldb-patched-windows/db/db_impl.cc:416-432 | replaying a logged group inserts what the live write inserted and finds its last sequence number |
| Recovery.PrefixIsRecovered | utils/leveldb-patched-windows/db/db_impl.cc:404-444 | from any byte prefix of a log of consecutive groups, recovery inserts exactly the entries of the wholly logged ones, in order, and finds their last sequence number |
| Recovery.LogIsRecovered | utils/leveldb-patched-windows/db/db_impl.cc:404-444 | from the whole log, all entries come back and the largest sequence number is the live one |
| Recovery.RecoveryFailsIff | utils/leveldb-patched-windows/db/db_impl.cc:404-427 | for every file: recovery fails if and only if the database is paranoid and the reader reported something or some record is not a good batch |
| Recovery.AnyLogIsRecovered | utils/leveldb-patched-windows/db/db_impl.cc:404-452 | for every file that recovers: the tables hold exactly what the readable records insert, in order, wherever memtables fill up, and the largest last sequence number is found |
| WriteQueue.BuildBatchGroup | utils/leveldb-patched-windows/db/db_impl.cc:1245-1290 | the group is the longest run of writers from the front that the sync rule and the size limit allow, and holds their operations in queue order |
| WriteQueue.PopGroup | utils/leveldb-patched-windows/db/db_impl.cc:1224-1233 | exactly the members of the group leave the queue and are answered with the leader's status |
| WriteQueue.RunsKeepInv | utils/leveldb-patched-windows/db/db_impl.cc:1170-1241 | over every interleaving of writers, exactly-once application, queue order, sync and gap-free numbering are kept |
| WriteQueue.GroupCommitIsRight | utils/leveldb-patched-windows/db/db_impl.cc:1170-1290 | writers are answered in the order of arrival; the operations applied are exactly those acknowledged as written and were all logged before, whatever fails; sequence numbers ascend; no sync writer is acknowledged without a sync |
| WriteQueue.GroupIsWritable | utils/leveldb-patched-windows/db/db_impl.cc:1251-1276 | the size limit keeps the count of a group within the batch header |
| WriteQueue.GroupIsBounded | utils/leveldb-patched-windows/db/db_impl.cc:1251-1276 | the bytes logged for a group of more than the first batch are at most a megabyte, and at most 128 KB beyond a first batch of up to 128 KB |
| WriteQueue.NumbersAreUsedOnce | utils/leveldb-patched-windows/db/db_impl.cc:1189-1222 | whatever fails, the groups that were ever led have ascending sequence numbers: none is used twice |
| WriteQueue.NothingIsWrittenAfterFailedSync | utils/leveldb-patched-windows/db/db_impl.cc:1209-1217 | after a failed sync, in every continuation of the run, neither that group nor any later write is applied or acknowledged as written, and that group stays the last one in the log |
| WriteQueue.CrashedRunIsRecovered | utils/leveldb-patched-windows/db/db_impl.cc:1195-1222 | while nothing fails, a crash at any byte of the log loses only groups at the end of what was applied |
| WriteQueue.SyncedWritesSurvive | utils/leveldb-patched-windows/db/db_impl.cc:1200-1207 | a crash that keeps at least what was synced loses no write acknowledged as synced, and nothing acknowledged before it |
| WriteQueue.NothingIsDurableWithoutSync | utils/leveldb-patched-windows/db/db_impl.cc:1200-1207 | while nothing fails, what counts as durable is exactly what was acknowledged up to some write that was acknowledged as synced |
| SkipLists.PublishLink | utils/leveldb-patched-windows/db/skiplist.h:364-369 | the second store of a level puts the node into the level's list in order, and every level stays a sorted list of nodes of the one below |
| SkipLists.CopyLink | utils/leveldb-patched-windows/db/skiplist.h:364-369 | the first store of a level changes nothing that a reader can see |
| SkipLists.LinkDivides | utils/leveldb-patched-windows/db/skiplist.h:262-281 | a link from before the key to a node at or after it separates the whole level at the key |
| SkipListReaders.LevelsAreNested | utils/leveldb-patched-windows/db/skiplist.h:337-370 | in every interleaving of one inserting writer and any readers, between any two stores, the levels are sorted lists and nested |
| SkipListReaders.LoadKeepsReader | utils/leveldb-patched-windows/db/skiplist.h:266-280 | a reader never loads a link that was not stored, and stays on its level and before its target |
| SkipListReaders.FinalLoadIsRight | utils/leveldb-patched-windows/db/skiplist.h:262-322 | a search that ends returns the right node of the list as it stands at its last load, even from a stale height |
| SkipListReaders.ReadersAreRight | utils/leveldb-patched-windows/db/skiplist.h:262-322 | so in every run, for FindGreaterOrEqual, FindLessThan and FindLast |
| SkipListReaders.RunsGrow | utils/leveldb-patched-windows/db/skiplist.h:18-26 | a node stays on the levels where it has been published, so a read misses nothing that was there when it began |
| SkipListObject.SkipList.FindGreaterOrEqual | utils/leveldb-patched-windows/db/skiplist.h:262-281 | returns the first node at or after the key, and the predecessor on every level |
| SkipListObject.SkipList.FindLessThan | utils/leveldb-patched-windows/db/skiplist.h:285-302 | returns the last node before the key, or the head |
| SkipListObject.SkipList.FindLast | utils/leveldb-patched-windows/db/skiplist.h:305-322 | returns the last node, or the head |
| SkipListObject.SkipList.Contains | utils/leveldb-patched-windows/db/skiplist.h:373-380 | true if and only if the key is in the list |
| SkipListObject.SkipList.Insert | utils/leveldb-patched-windows/db/skiplist.h:337-370 | the key joins the others at one place, its node stands in exactly the lowest levels that its height says, the height of the list grows if it must, and the structure is kept, for every height |
| SkipListObject.ContentsAscend | utils/leveldb-patched-windows/db/skiplist.h:337-370 | what the list holds is strictly increasing, which makes that place the right one |
| BlockBuilder.BlockBuilder.Add | utils/leveldb-patched-windows/table/block_builder.cc:73-107 | the buffer, restart points and last key are those of the pairs with one more, sharing the longest common prefix except at every restart |
| BlockBuilder.BlockBuilder.Finish | utils/leveldb-patched-windows/table/block_builder.cc:63-71 | the finished block is the entries, the restart array and its length |
| BlockFormat.DecodeWritten | utils/leveldb-patched-windows/table/block.cc:53-74 | decoding an entry in front of other data gives its three lengths and the place of its key and value |
| BlockFormat.DecodeIsThreeVarints | utils/leveldb-patched-windows/table/block.cc:57-68 | the one-byte fast path agrees with reading three varints |
| BlockFormat.RestartsAreRegular | utils/leveldb-patched-windows/table/block_builder.cc:73-107 | exactly every interval-th entry stores its whole key |
| BlockIter.EntryDecodes | utils/leveldb-patched-windows/table/block.cc:237-246 | at the offset of the i-th entry of a built block, decoding finds that entry |
| BlockIter.RestartPointIs | utils/leveldb-patched-windows/table/block.cc:99-102 | the restart array holds the offsets of the entries that store whole keys |
| BlockIter.BlockIter.ParseNextKey | utils/leveldb-patched-windows/table/block.cc:226-253 | the key is completed from the one before, and the iterator is at the next pair or past the end |
| BlockIter.BlockIter.Next | utils/leveldb-patched-windows/table/block.cc:139-142 | moves to the next added pair |
| BlockIter.BlockIter.Prev | utils/leveldb-patched-windows/table/block.cc:144-163 | moves to the previous added pair, from wherever the restart index points |
| BlockIter.BlockIter.Seek | utils/leveldb-patched-windows/table/block.cc:165-203 | stops exactly at the first pair whose key is not before the target, or past the end |
| BlockIter.BlockIter.SeekToFirst | utils/leveldb-patched-windows/table/block.cc:205-208 | moves to the first pair |
| BlockIter.BlockIter.SeekToLast | utils/leveldb-patched-windows/table/block.cc:210-215 | moves to the last pair |
| BlockIter.BlockIter.Key | utils/leveldb-patched-windows/table/block.cc:130-133 | the key of the current pair, rebuilt from shared prefixes |
| BlockIter.BlockIter.Value | utils/leveldb-patched-windows/table/block.cc:134-137 | the value of the current pair |
| FilterBlock.FilterBlockBuilder.StartBlock | utils/leveldb-patched-windows/table/filter_block.cc:22-28 | as long as offsets do not go back to an earlier range, filters are made up to the block's range, and every range has exactly the keys added under its offsets, in order |
| FilterBlock.FilterBlockBuilder.KeyList | utils/leveldb-patched-windows/table/filter_block.cc:60-67 | cutting the flattened keys at their starts gives the keys back |
| FilterBlock.FilterBlockBuilder.Finish | utils/leveldb-patched-windows/table/filter_block.cc:36-50 | the block is made of one group for each range up to the last one with keys or blocks, each exactly the keys added under offsets of that range |
| FilterBlock.FilterBlockReader.KeyMayMatch | utils/leveldb-patched-windows/table/filter_block.cc:95-109 | the answer is that of a function of the contents, for every contents |
| FilterBlock.OffsetWord | utils/leveldb-patched-windows/table/filter_block.cc:98-99 | the word after the last offset is the place of the array, which is where the last filter ends |
| FilterBlock.BuiltBlockAnswers | utils/leveldb-patched-windows/table/filter_block.cc:95-109 | in a built block the answer for an offset and any key is the policy's answer about the keys of that range, about the empty filter if it has none, and yes past the last range |
| FilterBlock.AddedKeyMayMatch | utils/leveldb-patched-windows/table/filter_block.cc:95-109 | so for a policy without false negatives, every key added under a block offset may match there |
| FilterBlock.OnlyFiltersRuleOut | utils/leveldb-patched-windows/table/filter_block.cc:95-109 | for any contents, a key is ruled out only by an empty filter or by the policy asked about a filter before the offset array: errors are potential matches |
| VersionEdit.DecodeUndoesEncode | utils/leveldb-patched-windows/db/version_edit.cc:109-210 | decoding into a fresh edit undoes encoding and consumes the whole input |
| VersionEdit.UsedEditRoundTripIff | utils/leveldb-patched-windows/db/version_edit.cc:26-39 | since Clear keeps the compaction pointers, decoding into a used edit gives back the encoded one if and only if it had none |
| VersionEdit.FieldRoundTrip | utils/leveldb-patched-windows/db/version_edit.cc:122-199 | one encoded field in front of anything decodes to itself |
| VersionEdit.FieldLayout | utils/leveldb-patched-windows/db/version_edit.cc:14-24 | every field begins with its tag |
| VersionEdit.InsertDeletedIsSet | utils/leveldb-patched-windows/db/version_edit.h:74-87 | the deleted files are a set, kept in order |
| VersionEdit.DecodeSucceedsIff | utils/leveldb-patched-windows/db/version_edit.cc:109-210 | for every input: decoding applies the fields that parse, in order, and succeeds if and only if nothing is left |
| VersionEdit.VersionEdit.EncodeTo | utils/leveldb-patched-windows/db/version_edit.cc:41-86 | appends the fields that are set, the pointers, the deletions in order and the additions |
| VersionEdit.VersionEdit.DecodeFrom | utils/leveldb-patched-windows/db/version_edit.cc:109-210 | the edit and the error are those of a function of the input, for every input, over the pointers that Clear leaves |
| VersionBuilder.SaveLevel | utils/leveldb-patched-windows/db/version_set.cc:705-731 | the merge loops write the base and added files in order without the deleted ones |
| VersionBuilder.SavedMembers | utils/leveldb-patched-windows/db/version_set.cc:702-763 | a saved level is sorted by smallest key and then by number, and holds exactly the base and added files whose numbers are not deleted |
| VersionBuilder.OneMoreEdit | utils/leveldb-patched-windows/db/version_set.cc:656-699 | feeding one more edit to a builder is applying it to what the builder would save, if the level never held the added numbers |
| Manifest.ManyEditsAreOneByOne | utils/leveldb-patched-windows/db/version_set.cc:656-763 | one builder fed many edits saves what applying them one at a time gives |
| Manifest.PrefixIsRecovered | utils/leveldb-patched-windows/db/version_set.cc:932-974 | from any prefix of a manifest, the wholly written edits are replayed: same files, and the numbers of the last edit |
| Manifest.ReplayFailsIff | utils/leveldb-patched-windows/db/version_set.cc:932-974 | for every file: replaying fails if and only if the reader reported something or some record is not an edit, or one for another comparator |
| VersionSetObject.Builder.Apply | utils/leveldb-patched-windows/db/version_set.cc:656-699 | the three loops update pointers, deletions and additions of every level as the edit says |
| VersionSetObject.VersionSet.SetCompactPointer | utils/leveldb-patched-windows/db/version_set.cc:1356-1361 | input selection sets the pointer of its level in memory at once, ahead of any edit |
| VersionSetObject.VersionSet.LogAndApply | utils/leveldb-patched-windows/db/version_set.cc:811-894 | the edit that is written has the last sequence and next file number in force, the edit's own log numbers or else those in force, and the edit's pointers, deletions and additions; the manifest holds exactly the logged edits behind a snapshot, they lead to the current version and to the logged pointers, and only the pointers of compactions picked and not yet logged differ in memory |
| VersionSetObject.VersionSet.Reopen | utils/leveldb-patched-windows/db/version_set.cc:896-1009 | opening the manifest again gives a version set with the same files, the logged pointers, the same log numbers, and the last sequence and next file number that were in force at the last LogAndApply, ready for the next edit |
| VersionSetObject.SnapshotRestores | utils/leveldb-patched-windows/db/version_set.cc:1054-1082 | replaying the snapshot alone gives the version and the compaction pointers it was taken of |
| VersionSetObject.SetPointersAre | utils/leveldb-patched-windows/db/version_set.cc:1061-1068 | a snapshot names the compaction pointers that are set, and only those |
| VersionSetObject.VersionSet.Recover | utils/leveldb-patched-windows/db/version_set.cc:896-1009 | the recovered state and the error are those of a function of the manifest's bytes, for every manifest |
| VersionSetObject.VersionSet.RecoveredIsOk | utils/leveldb-patched-windows/db/version_set.cc:975-1006 | a version set recovered from a manifest that LogAndApply wrote satisfies the object invariant again, with the files, pointers and all four numbers as of the last edit |
| VersionSetObject.ManifestRebuilds | utils/leveldb-patched-windows/db/version_set.cc:896-1009 | what LogAndApply wrote leads back to the same files per level, the last logged pointers, and the log, previous log, next file and last sequence numbers as of the last edit |
| VersionSetObject.VersionSet.CrashKeepsLoggedPointers | utils/leveldb-patched-windows/db/version_set.cc:1356-1361 | after a crash the pointers are the logged ones, which differ from those in memory at most in the levels set ahead of an edit |
| VersionSetObject.CutManifestRebuilds | utils/leveldb-patched-windows/db/version_set.cc:932-974 | a manifest cut off anywhere leads back to the state before the edit that was cut |
| SnapshotList.SnapshotList.New | utils/leveldb-patched-windows/db/snapshot.h:41-50 | the new snapshot is linked in as the newest and the others keep their places |
| SnapshotList.SnapshotList.Delete | utils/leveldb-patched-windows/db/snapshot.h:52-57 | exactly the given snapshot leaves the list, wherever it is |
| SnapshotList.SnapshotList.Oldest | utils/leveldb-patched-windows/db/snapshot.h:38-38 | the oldest snapshot is the first of the list |

## Left out

- LsmRuns.SafeRunsReadRight: assumes the guards that the code does not check, a harmless split for compactions and moves and no gap for flushes; `LsmExact` proves each of them exact for its step.
- LsmBegin.BeginMakesJobOk: compactions in the state machine follow the drop rules; the loop with a smallest snapshot of 2^56 - 1, which drops everything, is modelled in `CompactionWork` only.
- BlockIter.BlockIter.DecodeCurrent: asks that the lengths of a decoded entry stay within the block, since a 32-bit sum of corrupt lengths may wrap in the source.
- BlockIter.BlockIter.Seek: proved for blocks that `BlockBuilder` wrote and that are smaller than 2^32 bytes; on other contents only the error paths of decoding are modelled.
- FilterBlock.BuiltBlockAnswers: what a reader answers on contents that no builder made is stated only as a function of the contents.
- WriteQueue.CrashedRunIsRecovered: a failed append is modelled as leaving nothing in the log; after any failure the exactly-once, ordering and logged-before-applied claims remain.
- VersionSetObject.VersionSet.LogAndApply: asks that an edit adds no file number to a level that held it since the manifest began, which is how the engine numbers and moves files; writing is assumed to succeed.
- DbImpl.DBImpl.BackgroundCompaction: asks that some sequence number is left; narrowing the rest of a manual compaction after each pass is not modelled.
- DbImpl.DBImpl.DoCompaction: the sizes of a table file, while it is written and when it is finished, are arbitrary functions of its entries instead of `TableBuilder`'s byte counts; the numbers of all outputs are reserved when the compaction starts.
- SnapshotList.SnapshotList.Delete: takes the place of the snapshot as a ghost argument; freeing memory is not modelled.
- Writes and flushes in the LSM modules take entries as values; their bytes in memtables and logs are modelled in `KeyCoding` and `WriteBatch`.
- Level scores and seek statistics, which choose the level or file to compact, are parameters; floating point is not modelled.
- The waiting, delays and level-0 triggers of `MakeRoomForWrite`; only the memtable switch is.
- Real concurrency of mutexes and memory barriers: steps are atomic and sequentially consistent, except that a skip-list reader may see any past height.
- Random heights of skip-list nodes are parameters.
- CrashRecovery.CrashAtAnyByteIsRecovered: the logs of both memtables are taken as one, cut off at one place.
- LsmCrash.CrashKeepsWorld: file contents and the manifest are taken to survive a crash; numbers skipped after it count as deletions of a user key never written.
- Readers with a non-zero initial offset, and the deletion of obsolete files.
- File, cache, compression and I/O error handling, corrupt internal keys, and the index blocks of tables; a table file is a sorted sequence of entries with its recorded range.
- The Qt front end, the torrent and HTTP wrappers, the CSV reader and the thread pool of the repository.
