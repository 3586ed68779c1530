# rust-kvdb: a verified model of the storage engine

A Dafny model of an LSM-tree key-value engine: the engine as a state machine and as an object, its memtable and
skip list, its write-ahead log, its compaction, its SSTable files with bloom filter and block cache, and its manifest.
The proofs say when the engine behaves as a plain map of last writes, and they decide the cases where it does not.

## What is modelled

**The engine as a state machine.** `Machine.State` is the active list (as a map) with its byte size, the log records,
the recency-ordered readers, and the two counters. `Machine.Write` is one put, delete or put-with-TTL together with the
freeze, flush and cascade of compactions it triggers (`Machine.Flushed`, `Cascade.Cascaded`, `Compaction.Compact`).
`Machine.SpecRun` is the specification: a map from keys to the last inner value, read through the value codec.
`LastWrites` says the same without it, in the user's own values and clocks. `Recovery.Open` is a reopen. `Histories.Db` adds
what the log file holds in front of the engine's own records and how many records the tables cover; `Histories.Take` is one
step of it (a write, a restart, a clean close, lost log records, a crash at each point of the flush protocol) and
`Histories.Writes` are the writes that survive. `Snapshots.GetAt` is a snapshot read, `Scans.Scan` a range scan.
`Engines.Engine` is the object itself: it holds a memtable over a linked skip list, a manifest, files, readers, a log file and
the log writer's buffer, it runs the source's loops, and each method is proved to move exactly as the state machine does.

**The memtable.** `SkipLists` is the multi-lane linked list on the heap, spliced in place, with the tower height drawn
arbitrarily. Its ghost spine, tower heights and pointer tables describe every lane; `Towers` and `Ranks` hold the arithmetic
of successors and ranks.

**Files.** `Blocks`, `Bloom`, `Builders`, `TableFormat`, `TableReaders` and `Caches` are the SSTable pipeline down to bytes,
`Manifests` the manifest file, `WalRecord`, `Wal` and `TornWrites` the log. `Merging` is the k-way merge iterator over its heap.

## Main results

- `Machine.RunRefinesIff`: in a session from an empty database the engine agrees with the map of last writes throughout
  exactly when no compaction drops a tombstone or expired entry that hid a visible version in a deeper level. With
  `max_levels <= 2` this always holds (`Machine.TwoLevelRunRefines`). With more levels it can fail:
  `Resurrection.DeletedKeyReturns` runs ten puts and a delete after which the deleted key is back.
- `LastWrites.RunShows` and `LastWrites.HistoryShows`: the same in the user's own terms, with literal marker bytes and clocks.
- `Recovery.ReopenShowsIff`: a reopen shows every key as before exactly when no key outside the log has a deepest version
  that shows something else than its shallowest. `StaleReopen.OverwrittenValueReturns` is a history where it fails.
- `Histories.HistoryRefines`: any number of sessions, crashes inside a flush, losses at the end of the log file, restarts and
  closes refine the map of the writes that survive, when compactions are safe, no reopen finds a key in two levels, and a log
  that loses records which the tables cover is left with harmless ones, that is, ones that say what the tables say.
  `Histories.LoseShowsIff` and `TornWrites.ByteLossRefines`, which starts from the bytes of the file, show this last proviso
  to be exact, and `TornWrites.ResidueCutRevives` is a history outside it. With one level and `sync_wal` no proviso is left
  (`Histories.SyncedHistory`).
- `SkipLists.SkipList.Insert`: for every tower height the splice keeps all lanes and changes the map at one key.
- `TableReaders.FindInFile`, `TableReaders.RoundTrip` and `TableReaders.SSTableReader.Get`: bytes written by the builder read back as the sorted map
  they were written from, with any coherent cache or none.
- `Wal.TornTail`: any prefix of the log reads as the maximal list of whole records. `Wal.StopsGracefullyIff` and
  `Wal.ReadsIff`: exactly which bytes behind a log, and exactly which files, are read without error.
- `Snapshots.SnapshotStable` and `Snapshots.SnapshotShowsIff`, `Scans.ScanAgreesWithGet` and `Scans.PrefixScanIff`,
  `Merging.FirstWinsIsOverlay`, `Bloom.InsertedIsFound`.
- `Caches.RecentFirst` and `Caches.EvictedIsOldest`: the block cache evicts in the order of last use, read off the operations.
- `Cascade.FullIsEmptied`, `Cascade.OneCompaction` and `Machine.RunLevels`: which levels a flush compacts, by table counts.
- `Wal.ReadChecksums` and `Wal.ChangedRecordIsError`: no record is replayed whose bytes are not those of its checksum.

## Where the code and its documentation disagree

The model follows the code.

- The repository's README.md lists "automatic tombstone and TTL cleanup" (line 72). The cleanup happens at every level
  (src/engine.rs:608-618), so with three or more levels a deleted or expired key can show an older value again
  (`Resurrection.DeletedKeyReturns`; exactly when: `Machine.RunRefinesIff`).
- It promises crash recovery (line 69). The readers are rebuilt shallow level first (src/engine.rs:149-164) although
  lookups trust the end of the list, so a reopen can show an overwritten value (`StaleReopen.OverwrittenValueReturns`;
  exactly when: `Recovery.ReopenShowsIff`, in a flush `Sessions.FlushCrashShowsIff`).
- Without `sync_wal` a dropped log writer appends its buffer behind the truncation (src/engine.rs:661-670), records that the
  tables hold already. Losing some of them revives overwritten values (`TornWrites.ResidueCutRevives`), and so does losing
  records behind a saved manifest (`TornWrites.LossBehindManifest`). Exactly when: `Histories.LoseShowsIff` and
  `Sessions.ManifestLossIff`.
- It calls snapshots MVCC (line 73). Memtable and compaction keep one version per key, so a snapshot loses a value
  that is overwritten later (`Snapshots.SnapshotLosesOverwritten`); `Snapshots.SnapshotShowsIff` says when it is right.
- src/wal/writer.rs:71-72 says that the reader stops gracefully at a corrupted or truncated record. It does so exactly
  when the bytes behind the intact log are too few for a length field or for what the length field announces
  (`Wal.StopsGracefullyIff`); a complete frame that fails to decode is an error that replay passes on, so four zero bytes
  behind the log already keep the database from opening (`Wal.ZeroTailIsError`). The log is then reopened behind the torn
  bytes (src/wal/writer.rs:26-35), and what is appended there may never be read (`Wal.LostBehindTornByte`).
- src/wal/writer.rs:37 says that `append` flushes the internal buffer. It does not (`Wal.WALWriter.WriteAll`); only `flush`
  does (`Wal.WALWriter.Flush`).
- src/memtable/skiplist.rs:199-219 says that each level has probability about 1/2. `(v | 1).trailing_zeros()` is 0 for
  every `v`, so every tower has the lowest height (`Towers.FlatTowers`). The other proofs hold for every choice of heights.
- src/memtable/skiplist.rs:192 calls the size an estimate of the memory in use. Overwriting a key is not counted, so a
  memtable can hold any number of bytes without being flushed (`Machine.OverwritesUncounted`); distinct keys are
  (`Machine.UnflushedBytes`).
- src/sstable/block.rs:44 says that the estimated size equals the encoded length. It leaves out the entry count and ignores
  prefix compression (`Blocks.EstimateIff`).
- src/engine.rs:742-755: for a prefix ending in 0xFF the bound keeps the trailing 0xFF bytes, so the scan returns keys
  without the prefix; for a prefix of 0xFF bytes only, it misses keys with it (`Scans.PrefixScanIff`, `Scans.PrefixCoversIff`).

## Assumptions that the statements carry

- `l0_compaction_threshold >= 1` and a clock that does not go back (`Machine.Timely`).
- The user's value is neither the single byte 0 nor nine or more bytes starting with 1, where a statement speaks of user
  values; otherwise the specification map holds inner values.
- Keys shorter than 2^16 bytes, values and files shorter than 2^32 bytes, and at most (2^32 - 1) / 10 keys in one table, for
  the byte formats.
- The checksum function, the hash count in 1..30 and the tower heights are arbitrary parameters.

## Model

| member | source | states |
|---|---|---|
| `ValueCodec.SeqRoundTrip` | src/engine.rs:673-688 | numbering a value and reading it back gives the value and its number, for every 64-bit number |
| `ValueCodec.InnerRoundTrip` | src/engine.rs:691-705 | a numbered value shows exactly what its inner value shows |
| `ValueCodec.PlainValueIff` | src/engine.rs:190-203 | a user value is shown unchanged exactly when it is neither the single byte 0 nor nine or more bytes of which the first is 1 |
| `ValueCodec.AliasedValue` | src/engine.rs:689-724 | the byte 0 shows nothing, and nine bytes led by 1 show what follows them up to the clock in them |
| `ValueCodec.TtlRoundTrip` | src/engine.rs:307-336 | a value put with a TTL is shown, at its own bytes, exactly before its expiry |
| `ValueCodec.ShowMonotone` | src/engine.rs:709-724 | what a lookup shows can only disappear as the clock moves on, never change or return |
| `Tables.OverlayIsLookup` | src/engine.rs:409-447 | overwriting oldest to newest (scan, compaction) and stopping at the newest hit (get) give the same answer |
| `Tables.LookupNewest` | src/engine.rs:417-422 | a lookup answers from the last table of the list that holds the key, and is empty only if none does |
| `OrderedMaps.SortedEntries` | src/engine.rs:600-606 | the entries of a `BTreeMap` come out strictly sorted and are exactly the map |
| `OrderedMaps.ToMapSortedEntries` | src/engine.rs:600-638 | sorting a map and inserting the entries back gives the map |
| `OrderedMaps.SortedUnique` | src/engine.rs:430-472 | a strictly sorted list is determined by the map it denotes |
| `Compaction.HullCovers` | src/engine.rs:580-594 | the merged range covers every input table, those of the destination level included |
| `Compaction.SharedKeySelected` | src/engine.rs:584-594 | a destination table sharing a key with a source table is selected |
| `Compaction.SelectedIff` | src/engine.rs:584-594 | a destination table is merged if and only if it ends no earlier than some source table begins and begins no later than some source table ends |
| `Compaction.TightRange` | src/engine.rs:533-535 | the range of a table runs from its least to its greatest key |
| `Compaction.MergedLookup` | src/engine.rs:600-606 | the merged map gives, for each of its keys, the answer the whole list gave |
| `Compaction.UnmergedLookup` | src/engine.rs:648-653 | a key outside the merged map is answered by the surviving tables as before |
| `Compaction.CompactLookup` | src/engine.rs:575-658 | the exact answer after a compaction step: as before, except that a key whose merged version was dropped is answered by the deeper levels |
| `Compaction.CompactShow` | src/engine.rs:608-618 | a step that does not uncover a key shows it as before at the same and every later clock; one that does makes a hidden key visible |
| `Compaction.CompactPreservesIff` | src/engine.rs:575-658 | a compaction step preserves what every get shows, now and later, exactly when no dropped tombstone or expired entry had a visible version in a deeper level |
| `Compaction.NoDeeperOverlapIsSafe` | src/engine.rs:584-618 | a step is safe when no table deeper than the destination overlaps an input, a condition on the manifest alone |
| `Compaction.UnselectedApart` | src/engine.rs:584-594 | a destination table that was not selected is disjoint from every input |
| `Compaction.OutputDisjoint` | src/engine.rs:621-645 | the output table is disjoint from every surviving table of its level |
| `Compaction.CompactWF` | src/engine.rs:575-658 | key ranges bounding their tables, disjointness within each level from 1 on, and shallower-is-newer order survive a step; new ids stay fresh |
| `Cascade.FullNonempty` | src/engine.rs:557-585 | a level over its threshold is not empty, so the unwraps of the source range cannot fail |
| `Cascade.CascadeInvStep` | src/engine.rs:555-572 | a level from 1 on is compacted only when all shallower levels are empty, and the step keeps the cascade invariant |
| `Cascade.CascadeKeeps` | src/engine.rs:555-572 | the cascade keeps the reader-list invariant and ends with every level below the last under its threshold |
| `Cascade.CascadeInduction` | src/engine.rs:555-572 | whatever every single compaction keeps, at any level and for any id, the whole cascade keeps |
| `Cascade.ThresholdSteps` | src/engine.rs:558-563 | level 0 has the threshold of the options, every level ten times that of the one above it |
| `Cascade.NothingToDo` | src/engine.rs:555-572 | with fewer than `l0 * 10^l` tables in every level but the last, the cascade changes nothing |
| `Cascade.FullIsEmptied` | src/engine.rs:555-572 | the shallowest level with at least `l0 * 10^l` tables, if not the last, is empty after the cascade |
| `Cascade.OneCompaction` | src/engine.rs:555-572 | if no other level is full or made full by it, that one compaction is all that happens |
| `Cascade.SafeCascadeShows` | src/engine.rs:555-572 | a cascade of safe steps shows every key as before, now and later |
| `Cascade.CascadeOnlyUncovers` | src/engine.rs:555-572 | at the compaction clock a cascade never hides or changes a visible key, safe or not |
| `Cascade.UnsafeCascadeUncovers` | src/engine.rs:608-618 | an unsafe cascade makes some hidden key visible at once |
| `Cascade.TwoLevelsSafe` | src/engine.rs:557 | with `max_levels <= 2` every cascade is safe |
| `Cascade.ClearCascadeSafe` | src/engine.rs:555-618 | a cascade of any depth is safe when none of its compactions merges a table whose range meets that of a table below its destination |
| `Machine.WriteInv` | src/engine.rs:190-226 | every write, with the flush and the compactions it triggers, keeps the engine invariant |
| `Machine.FlushedShows` | src/engine.rs:507-549 | a flush with a safe cascade shows every key as before, now and later |
| `Machine.WriteRefines` | src/engine.rs:190-226 | one safe write refines one update of the map of last writes |
| `Machine.UnsafeWriteDeparts` | src/engine.rs:608-618 | a write whose cascade is unsafe departs from the map of last writes at once |
| `Machine.RunInv` | src/engine.rs:190-226 | the engine invariant, and `next_seq` being one more than the number of writes, in every reachable state of a session |
| `Machine.RunRefines` | src/engine.rs:409-425 | latest-write refinement: after any safe run get shows the last operation on the key, at the current and every later clock |
| `Machine.RunRefinesIff` | src/engine.rs:190-226 | a run agrees with the map of last writes throughout exactly when each of its compactions is safe |
| `Machine.TwoLevelRunRefines` | src/engine.rs:557 | with `max_levels <= 2` every run agrees with the map of last writes throughout |
| `Machine.ClearRunRefines` | src/engine.rs:575-618 | with any number of levels, a run agrees with the map of last writes throughout when no compaction of it merges a table whose range meets that of a table below its destination |
| `Machine.RunLevels` | src/engine.rs:555-572 | in every reachable state of a session each level but the last has fewer than `l0 * 10^l` tables, and none lies deeper than the last |
| `Machine.FreshGrows` | src/memtable/skiplist.rs:130-136 | a fresh key adds its bytes, its number, its node and its tower to the size |
| `Machine.UnflushedBytes` | src/memtable/memtable.rs:46-51 | a memtable of distinct keys that was not flushed holds no more user bytes than its limit |
| `Machine.OverwritesUncounted` | src/memtable/skiplist.rs:116-120 | a value of any size can replace a small one without being counted, so without a flush |
| `LastWrites.RunShows` | src/engine.rs:409-425 | after a safe session get shows the value last put, unless it is the byte 0 or nine bytes led by 1; nothing after a delete; the value of a put with TTL for exactly that long after the clock of the put |
| `LastWrites.HistoryShows` | src/engine.rs:409-425 | the same over sessions, crashes and reopens, for the writes that survive them |
| `LastWrites.UnwrittenHidden` | src/engine.rs:409-425 | a key that was never written shows nothing |
| `LastWrites.ReadYourWrite` | src/engine.rs:190-203 | a put into an empty database is read back at once exactly under that condition on its bytes |
| `LastWrites.Logged` | src/engine.rs:190-226 | the log record of each operation: kind, key, and the numbered value |
| `Resurrection.DeletedKeyReturns` | src/engine.rs:608-618 | when every write is flushed, one level-0 table triggers compaction and `max_levels >= 3`, a concrete run of ten puts and one delete after which the deleted key is readable again |
| `Resurrection.DeleteUncovers` | src/engine.rs:575-658 | a delete flushed above data of level 2 uncovers that data |
| `Recovery.AppliedLogMatches` | src/engine.rs:190-226 | log and active list show the same for every key after every write, deletes included, whose log value differs |
| `Recovery.WriteLogMatches` | src/engine.rs:489-504 | replaying the log of a running engine shows what its memtable shows |
| `Recovery.OpenStored` | src/engine.rs:149-187 | opening a directory that stores a state yields its replayed log and its readers regrouped by level |
| `Recovery.OpenedTables` | src/engine.rs:149-164 | opening reads exactly the listed tables that have a file |
| `Recovery.OpenLevelConcat` | src/engine.rs:149-164 | in the order of the manifest |
| `Recovery.NextIdLeast` | src/engine.rs:146-160 | the next id is one above the greatest in use, 1 in an empty database |
| `Recovery.ShallowestAnswers` | src/engine.rs:417-422 | a running engine answers from the shallowest level holding the key |
| `Recovery.DeepestAnswers` | src/engine.rs:149-164 | a reopened engine answers from the deepest level holding the key |
| `Recovery.ReopenShowsIff` | src/engine.rs:129-187 | reopening shows every key as before exactly when no key outside the log has a deepest version that shows something else than its shallowest |
| `Recovery.ReopenKeeps` | src/engine.rs:129-187 | when no key lies in two levels, reopening keeps the invariant and shows every key as before |
| `Recovery.CompactionRepairs` | src/engine.rs:575-658 | the first compaction of the shallowest level after a reopen brings back the newest version of each live key it merges, and leaves the answers for other keys as the reopen gave them |
| `StaleReopen.OverwrittenValueReturns` | src/engine.rs:149-164 | when every write is flushed and two level-0 tables trigger compaction into the last of two levels, a history of three puts and a restart after which the overwritten value is back |
| `Sessions.AddTopLevel` | src/manifest.rs:99-104 | adding a table to level 0 appends to that level, growing the list if needed, and touches nothing else |
| `Sessions.CrashDiskStores` | src/engine.rs:520-545 | after "table written", "manifest saved" and "log truncated" the directory stores a state of the protocol |
| `Sessions.FlushCrashSafe` | src/engine.rs:507-549 | reopening after a crash at any point of the flush shows every key as without the crash, when no key then lies in two levels |
| `Sessions.FlushCrashShowsIff` | src/engine.rs:507-549 | reopening after a crash at a point of the flush shows every key as before if and only if no key outside the log is stale in the tables reached |
| `Sessions.ManifestLossIff` | src/engine.rs:541-542 | with any log left behind a saved manifest, reopening shows every key as before if and only if that log says of its keys what the engine said |
| `Sessions.TopLevelOnly` | src/engine.rs:507-549 | with all tables in level 0 that proviso holds at every point |
| `Sessions.ClosedEmpties` | src/engine.rs:475-482 | a closed engine has nothing in memory |
| `Recovery.LogAboveTablesIff` | src/engine.rs:149-187 | with any log above the stored tables, reopening shows what the tables show if and only if the log says of its keys what they say |
| `Histories.LoseShowsIff` | src/engine.rs:489-504 | a log file, residue included, of which the first m records are left: the reopened engine refines the surviving writes if and only if these are all records that the tables cover, or say what the tables say |
| `Histories.FlushTracks` | src/engine.rs:661-670 | however many buffered records the dropped writer appends behind the truncation, the database after the flush shows the writes, with the whole of that residue and without it |
| `Histories.MidTracks` | src/engine.rs:520-545 | at every point of a flush each log that keeps the covered records shows the writes without those of the lost records, and the directory stores the state |
| `Histories.TakeDurable` | src/engine.rs:129-187 | each step keeps the invariant, refinement, and refinement for every log that keeps the covered records; the loss of covered records is admitted when what is left is harmless |
| `Histories.HistoryRefines` | src/engine.rs:409-425 | any safe history over many sessions, with residues behind truncations, crashes in a flush, losses at the end of the log file and clean closes refines the map of the writes that survive |
| `Histories.OneLevelHistory` | src/engine.rs:557 | with a single level every history is safe in which a log file that loses records covered by tables is left with harmless ones |
| `Histories.SyncedHistory` | src/engine.rs:195-199 | with a single level and `sync_wal` no crash, close or reopen loses or revives any write, interrupted ones included |
| `TableIds.SameIdSameTable` | src/engine.rs:518-519 | in one session two tables with the same id are the same table, however much lies between them |
| `TableIds.LoadsStayBelow` | src/sstable/reader.rs:165-203 | reading through the cache stores only blocks of tables that exist, numbered below the next id |
| `TableIds.NewTableCoherent` | src/engine.rs:537 | a table made by a write finds no cached block under its id, so the shared cache is coherent for it from the start |
| `Snapshots.RunNumbered` | src/engine.rs:673-678 | in every reachable state each stored version is what the write with its number stored, and numbers of a key strictly increase along the reader list and into the memtable |
| `Snapshots.FlushedStored` | src/engine.rs:507-658 | a flush with its compactions stores no version that was not stored before |
| `Snapshots.CompactChronological` | src/engine.rs:575-658 | compaction keeps the versions of each key in increasing order, for any numbering of values |
| `Snapshots.FoundStored` | src/engine.rs:279-301 | what a snapshot read finds is a stored version numbered below the snapshot |
| `Snapshots.FoundNewest` | src/engine.rs:279-301 | it finds one if there is any, and none stored below the snapshot is newer |
| `Snapshots.SnapshotFinds` | src/engine.rs:272-301 | a snapshot read finds the version current at the snapshot while it is stored, and otherwise what a snapshot taken before that version would find |
| `Snapshots.FindsNewestBelow` | src/engine.rs:279-301 | a snapshot read finds exactly the newest stored version numbered below the snapshot, and nothing exactly when there is none |
| `Snapshots.SnapshotShowsIff` | src/engine.rs:272-301 | for a key written before the snapshot the read shows what the key showed then if and only if that version is still stored, or the newest older stored version shows the same, or none is stored and the key was not visible |
| `Snapshots.SnapshotHidesLater` | src/engine.rs:279-301 | a key first written after the snapshot is absent from it, as it was then |
| `Snapshots.SnapshotIsGet` | src/engine.rs:279-301 | for a key not written since the snapshot, the snapshot read and get find the same version |
| `Snapshots.SnapshotStable` | src/engine.rs:272-301 | whatever is written, flushed and compacted later, a snapshot shows every key not written since as the map of last writes had it |
| `Snapshots.SnapshotLosesOverwritten` | src/engine.rs:279-301 | overwriting a key that is still in the memtable takes its value away from an earlier snapshot |
| `Scans.ScanAgreesWithGet` | src/engine.rs:430-472 | a scan is strictly sorted and holds exactly the pairs in the range that get shows |
| `Scans.ScansFollowGets` | src/engine.rs:430-472 | engines that show the same for every key scan the same in every range |
| `Scans.CompactKeepsScans` | src/engine.rs:575-658 | a safe compaction step leaves every scan of every range as it was, now and later |
| `Scans.PrefixRangeIff` | src/engine.rs:743-755 | the scanned range is exactly the keys with the prefix if and only if the prefix is non-empty and its last byte is below 0xFF |
| `Scans.PrefixCoversIff` | src/engine.rs:743-755 | the range misses no key with the prefix if and only if some byte of the prefix is below 0xFF |
| `Scans.PrefixScanIff` | src/engine.rs:339-342 | a prefix scan returns exactly the visible keys with the prefix, on every state, if and only if the prefix is non-empty and its last byte is below 0xFF |
| `Scans.NoLowByteScan` | src/engine.rs:743-755 | for a prefix of 0xFF bytes only, the empty one included, the scan returns at most the prefix itself |
| `Scans.NextKeyBytes` | src/engine.rs:743-755 | the bound is the prefix with its last byte below 0xFF increased, or with a zero byte behind it |
| `Engines.Engine.Open` | src/engine.rs:129-187 | opening any directory gives the state the recovery function describes, tables without a file skipped, or the error of the log; a directory an engine left behind opens ready for use |
| `Engines.Engine.ReplayWal` | src/engine.rs:489-504 | the fresh memtable holds the replay of the log bytes, whatever its size, and nothing is frozen; a record that does not decode is an error |
| `Engines.Engine.OpenReaders` | src/engine.rs:149-180 | readers for everything the manifest lists, shallow levels first, and an id above all of theirs |
| `Engines.Engine.AddSst` | src/manifest.rs:99-104 | the manifest lists the new table last in its level |
| `Engines.Engine.RemoveSst` | src/manifest.rs:107-116 | the first level listing the id loses it, the others are unchanged, and the result says whether one was found |
| `Engines.Engine.FindReader` | src/engine.rs:601 | the first reader with the id, if there is one |
| `Engines.Engine.WriteOutput` | src/engine.rs:621-645 | what survived the merge, if anything, becomes one table of the destination level |
| `Engines.Engine.RemoveTables` | src/engine.rs:648-653 | the inputs leave manifest, readers and files, the rest is unchanged |
| `Engines.Engine.AppendLog` | src/engine.rs:195-198 | the record is appended behind file and buffer, which spills exactly as the writer of bytes does; with `sync_wal` all of it reaches the file |
| `Engines.Engine.ResetWal` | src/engine.rs:661-670 | the file is truncated, and then holds the records that the dropped writer still buffered |
| `Engines.Engine.Snapshot` | src/engine.rs:272-274 | a snapshot is the number of the next write |
| `Engines.Engine.ScanMap` | src/engine.rs:430-447 | the loops overlay tables, oldest first, and then the memtable, within the range |
| `Engines.Engine.MergeTables` | src/engine.rs:600-606 | the loop builds the overlay of the chosen tables, oldest first |
| `Engines.Engine.SelectInputs` | src/engine.rs:580-594 | the inputs are the source level and the destination tables its hull overlaps |
| `Engines.Engine.Replace` | src/engine.rs:621-655 | readers, manifest and files are those after the step |
| `Engines.Engine.CompactLevel` | src/engine.rs:575-658 | the class performs exactly the compaction step of the state machine |
| `Engines.Engine.MaybeCompact` | src/engine.rs:555-572 | the loop performs exactly the cascade of the state machine |
| `Engines.Engine.WriteFlushed` | src/engine.rs:507-545 | the frozen list becomes a level-0 table, the manifest is saved, the log is emptied |
| `Engines.Engine.MaybeFlush` | src/engine.rs:507-549 | a frozen list, if any, is flushed and compactions follow; otherwise nothing changes |
| `Engines.Engine.Put` | src/engine.rs:190-203 | the engine object moves as the state machine does on a put |
| `Engines.Engine.Delete` | src/engine.rs:206-226 | the engine object moves as the state machine does on a delete |
| `Engines.Engine.PutWithTtl` | src/engine.rs:307-336 | the engine object moves as the state machine does on a put with a TTL |
| `Engines.Engine.Close` | src/engine.rs:475-482 | closing flushes what is in memory and leaves nothing buffered |
| `Engines.Engine.Get` | src/engine.rs:409-425 | get returns what the state machine shows |
| `Engines.Engine.GetAt` | src/engine.rs:279-301 | get_at returns what the snapshot read of the state machine shows |
| `Engines.Engine.Scan` | src/engine.rs:430-472 | scan returns the scan of the state machine, which is what get shows in the range |
| `Engines.Engine.NextKey` | src/engine.rs:743-755 | the loop bumps the last byte below 0xFF and keeps the bytes after it, or appends a zero byte |
| `Engines.Engine.PrefixScan` | src/engine.rs:339-342 | prefix_scan returns the prefix scan of the state machine |
| `Removal.RemoveInputs` | src/engine.rs:648-653 | removing the inputs by id leaves exactly the survivors and the output |
| `Removal.OpenCoupled` | src/engine.rs:149-187 | after opening, manifest, files and readers describe the same tables with unique ids |
| `Towers.FlatTowers` | src/memtable/skiplist.rs:199-219 | whatever the state of the generator, the level drawn is 0 |
| `Towers.NextInserted` | src/memtable/skiplist.rs:124-127 | inserting a tower of any height changes each successor in each lane exactly as splicing does |
| `Towers.LaneVisits` | src/memtable/skiplist.rs:124-127 | lane i visits in order exactly the towers that reach it, so each lane is a sublist of the one below |
| `Ranks.MapInserted` | src/memtable/skiplist.rs:123-127 | inserting at the rank of a new key extends the map by that key alone |
| `Ranks.MapUpdated` | src/memtable/skiplist.rs:114-121 | overwriting in place changes the map at that key alone and keeps the order |
| `Ranks.RangeOfMembers` | src/memtable/skiplist.rs:166-184 | the entries between two ranks are exactly those with `start <= key < end` |
| `SkipLists.ShapeInserted` | src/memtable/skiplist.rs:94-137 | linked lanes, strict order, distinct nodes and tall towers survive the splice at any height |
| `SkipLists.SkipList.constructor` | src/memtable/skiplist.rs:81-89 | an empty list with a full-height head |
| `SkipLists.SkipList.Advance` | src/memtable/skiplist.rs:105-109 | the walk along a lane stops at the last node whose key is smaller |
| `SkipLists.SkipList.FindPath` | src/memtable/skiplist.rs:99-111 | the descent finds the predecessor in every lane, each tall enough for its lane |
| `SkipLists.SkipList.Splice` | src/memtable/skiplist.rs:124-127 | the loop links the node behind its predecessor in each of its lanes |
| `SkipLists.SkipList.Overwrite` | src/memtable/skiplist.rs:116-121 | the value is replaced in place and the map changes at that key |
| `SkipLists.SkipList.InsertNew` | src/memtable/skiplist.rs:123-136 | the new node enters all its lanes and the size grows by its cost |
| `SkipLists.SkipList.Insert` | src/memtable/skiplist.rs:94-137 | for any tower height the shape is kept, the map becomes `m[k := v]`, and the size grows exactly for a new key |
| `SkipLists.SkipList.Locate` | src/memtable/skiplist.rs:99-121 | the node holding the key is found exactly when the map has the key, and otherwise the path for the splice |
| `SkipLists.SkipList.Seek` | src/memtable/skiplist.rs:140-150 | the top-down descent ends at the last node before the key |
| `SkipLists.SkipList.Get` | src/memtable/skiplist.rs:140-159 | the search returns exactly the value the map has for the key |
| `SkipLists.SkipList.CollectScan` | src/memtable/skiplist.rs:166-184 | a scan yields exactly the sorted entries from `start` up to but not including `end` |
| `SkipLists.SkipList.CollectAll` | src/memtable/skiplist.rs:187-190 | iteration yields all entries in key order |
| `SkipLists.SkipList.Drop` | src/memtable/skiplist.rs:231-244 | dropping the list visits every node exactly once |
| `SkipLists.ScanIterator.Next` | src/memtable/skiplist.rs:260-277 | the next entry below the bound, or none, which then stays none |
| `SkipLists.FullIterator.Next` | src/memtable/skiplist.rs:292-302 | the next entry in key order, or none at the end |
| `MemTables.MemTable.Put` | src/memtable/memtable.rs:45-51 | the write lands in the active list, which is frozen exactly when it outgrows the limit and no frozen list waits |
| `MemTables.MemTable.PutNoFreeze` | src/memtable/memtable.rs:57-59 | the write lands in the active list and the frozen one is untouched |
| `MemTables.MemTable.Get` | src/memtable/memtable.rs:63-71 | the active list answers first, then the frozen one |
| `MemTables.MemTable.Scan` | src/memtable/memtable.rs:77-93 | the sorted entries of the range, the active list overwriting the frozen one |
| `MemTables.MemTable.Freeze` | src/memtable/memtable.rs:99-116 | freezing happens exactly when the active list holds something and nothing waits, and moves its map |
| `MemTables.MemTable.TakeImmutable` | src/memtable/memtable.rs:137-139 | the frozen list is handed over and its slot emptied |
| `WalRecord.RecordRoundTrip` | src/wal/record.rs:44-108 | an encoded record decodes to itself, for any checksum function |
| `Bytes.LittleEndian` | src/wal/record.rs:51-54 | the bytes of a 16-bit and a 32-bit field, least significant first |
| `Bytes.LittleEndianValue` | src/wal/record.rs:67 | the number that bytes stand for, each weighing 256 times the one before |
| `WalRecord.DecodeIff` | src/wal/record.rs:58-108 | a body decodes if and only if it is complete, its checksum is that of all bytes behind it, its operation is 1 or 2 and its fields lie within it; a wrong checksum is reported first |
| `WalRecord.DecodedFields` | src/wal/record.rs:84-108 | operation, key and value of a decoded record lie where its lengths say |
| `WalRecord.ChangedIsRejected` | src/wal/record.rs:67-82 | a record whose bytes changed behind its checksum does not decode, for any checksum that tells the two apart |
| `WalRecord.KnownRecord` | src/wal/record.rs:42-56 | one put and one delete byte for byte |
| `Wal.TornTail` | src/wal/writer.rs:90-107 | the first n bytes of a log read back as exactly the records lying wholly within them, with no error, for any checksum function |
| `Wal.WholeIsMaximal` | src/wal/writer.rs:90-107 | that prefix of records is the longest one that fits |
| `Wal.LogRoundTrip` | src/wal/writer.rs:38-107 | an intact log is read back completely |
| `Wal.StopsGracefullyIff` | src/wal/writer.rs:71-107 | behind an intact log the reader stops gracefully if and only if the bytes are too few for a length field or for what it announces |
| `Wal.ReadsIff` | src/wal/writer.rs:90-107 | any file is read without error if and only if each of its complete frames decodes |
| `Wal.ReadsFrames` | src/wal/writer.rs:90-107 | a file that is read without error gives exactly the records of its complete frames |
| `Wal.ZeroTailIsError` | src/wal/writer.rs:71-107 | four zero bytes behind a log make all of it unreadable |
| `Wal.LostBehindTornByte` | src/wal/writer.rs:26-35 | a record appended in full behind one torn byte is never read back |
| `Wal.CorruptRecordIsError` | src/wal/writer.rs:90-107 | a complete record that fails to decode is an error for the whole log, not its end |
| `Wal.ReadChecksums` | src/wal/writer.rs:90-107 | a log that is read has the right checksum, over all other bytes, in each complete frame |
| `Wal.WrongChecksumIsError` | src/wal/writer.rs:90-107 | a complete frame with a wrong checksum is a checksum error of the whole log |
| `Wal.ChangedRecordIsError` | src/engine.rs:489-504 | a record that changed on disk is never replayed |
| `Wal.WALWriter.WriteAll` | src/wal/writer.rs:44-45 | file and buffer together grow by the bytes, and what does not fit in the buffer sends it to the file first |
| `Wal.SpilledWhole` | src/wal/writer.rs:43-45 | the buffer goes to the file between two records, never within one, and no record is lost or out of order |
| `Wal.SpilledBounds` | src/wal/writer.rs:43-45 | at most 8 KiB stay buffered; what fits leaves the file alone, what does not sends everything buffered to it |
| `Wal.WALWriter.Append` | src/wal/writer.rs:38-47 | file and buffer together grow by an encoded put of the pair, and both hold whole records |
| `Wal.WALWriter.AppendRecord` | src/wal/writer.rs:50-54 | file and buffer together grow by the encoded record, and both hold whole records |
| `Wal.WALWriter.Flush` | src/wal/writer.rs:58-62 | everything appended is in the file, the buffer is empty |
| `Wal.WALReader.Next` | src/wal/writer.rs:90-107 | the reader yields the next record, a decoding error, or the end at a torn tail, and advances past it |
| `Wal.WALReader.ReadToEnd` | src/engine.rs:489-504 | the loop over the reader collects the records or stops at the first error |
| `TornWrites.PrefixDurability` | src/wal/writer.rs:90-107 | the loss of any bytes at the end of the log leaves a log that reads as a prefix of its records |
| `TornWrites.ByteLossRefines` | src/engine.rs:489-504 | after any safe history and any byte loss at the end of the log file the reopened engine refines the surviving writes if and only if all records that the tables cover are left, or harmless ones |
| `TornWrites.ResidueCutRevives` | src/engine.rs:661-670 | one level, without `sync_wal`: a concrete history in which a flush that overflows leaves three records behind the truncation, two of them are lost, and an overwritten value is back |
| `TornWrites.LossBehindManifest` | src/engine.rs:541-542 | the same records lost in the same flush behind the saved manifest: a view that no prefix of the writes leaves |
| `TornWrites.TornAppend` | src/wal/writer.rs:50-54 | a write whose append was torn is recovered exactly when all its bytes arrived; everything before it is recovered either way |
| `Merging.BestIsLeast` | src/compaction/merge_iterator.rs:28-33 | the chosen head is least by key, then by source index |
| `Merging.MergeIsShuffle` | src/compaction/merge_iterator.rs:47-80 | what the merge takes from each source is that source, in order |
| `Merging.MergeIsPermutation` | src/compaction/merge_iterator.rs:47-80 | as many entries come out as went in, each from one of the sources: the output is a permutation of all inputs |
| `Merging.MergeIsSorted` | src/compaction/merge_iterator.rs:28-80 | the output of sorted sources is sorted by key, then source index |
| `Merging.FirstWinsIsOverlay` | src/compaction/merge_iterator.rs:47-80 | keeping the first occurrence of each key equals the overlay of the sources, the first source winning |
| `Merging.MergeIsLookup` | src/engine.rs:436-447 | merging tables newest first and keeping first occurrences answers as the newest-first lookup |
| `Merging.MergeIterator.constructor` | src/compaction/merge_iterator.rs:47-63 | seeding puts the head of every non-empty source on the heap |
| `Merging.MergeIterator.Next` | src/compaction/merge_iterator.rs:69-80 | one step yields the least head and refills from its source: the next entry of the merge |
| `Merging.MergeIterator.Collect` | src/compaction/merge_iterator.rs:69-80 | repeated steps terminate with the whole merge |
| `Blocks.Shared` | src/sstable/block.rs:146-148 | the shared length is that of the longest common prefix |
| `Blocks.EntryRoundTrip` | src/sstable/block.rs:62-144 | an entry decodes against the key before it; the reused prefix is always in range |
| `Blocks.EntryCases` | src/sstable/block.rs:101-137 | which entry is corrupt, out of range or decoded, in the order of the checks |
| `Blocks.KnownBlock` | src/sstable/block.rs:62-88 | a block of two entries byte for byte |
| `Blocks.BlockRoundTrip` | src/sstable/block.rs:62-144 | encoded entries are read back, sorted or not, and bytes after them are ignored |
| `Blocks.TornBlockRejected` | src/sstable/block.rs:85-144 | every proper prefix of an encoded block is rejected as corrupt |
| `Blocks.EstimateIff` | src/sstable/block.rs:29-82 | encoded length plus shared bytes is four plus the estimate; length and estimate agree exactly when compression saves four bytes |
| `Blocks.Block.Add` | src/sstable/block.rs:29-32 | the entry is appended and the estimate counts it in full |
| `Blocks.Block.Encode` | src/sstable/block.rs:62-82 | the loop writes the block format |
| `Blocks.DecodeOne` | src/sstable/block.rs:97-136 | one entry is decoded, rejected as truncated, or panics on a reused prefix longer than the key before |
| `Blocks.DecodeBytes` | src/sstable/block.rs:85-144 | the loop decodes the block format, all error paths included |
| `Bloom.SetBitSets` | src/filter/bloom.rs:42 | setting bit p of a word sets exactly that bit |
| `Bloom.Build` | src/filter/bloom.rs:27-49 | the bit array marks exactly the positions of the keys; positions stay in range for any bit count |
| `Bloom.MarkKey` | src/filter/bloom.rs:37-43 | the inner loop marks exactly the positions of one key |
| `Bloom.Test` | src/filter/bloom.rs:55-68 | the loop says whether all positions of the key are set, or leaves the bit array, which happens only to a filter whose bit count exceeds its words |
| `Bloom.TestDecides` | src/filter/bloom.rs:55-68 | on a filter whose bit count fits its words the test decides membership and stays in range |
| `Bloom.TestPasses` | src/filter/bloom.rs:55-68 | the test passes exactly when every position is within the array and set |
| `Bloom.TestStops` | src/filter/bloom.rs:55-68 | it stops at the first position that is not, and panics exactly when that one is out of range |
| `Bloom.InsertedIsFound` | src/filter/bloom.rs:27-68 | no false negatives, for any key list and hash count |
| `Bloom.EmptyContainsNothing` | src/filter/bloom.rs:27-68 | a filter built from no keys contains nothing |
| `Bloom.FilterRoundTrip` | src/filter/bloom.rs:71-117 | a filter, and so each of its answers, survives its byte format |
| `Bloom.Decode` | src/filter/bloom.rs:83-117 | the loop decodes the filter format or rejects a truncated one |
| `Bloom.Fnv1aWithSeed` | src/filter/bloom.rs:132-139 | the loop computes the FNV-1a hash, wrapping at 32 bits |
| `Bloom.XorBits` | src/filter/bloom.rs:135 | the exclusive or differs exactly where the bits do |
| `Bloom.KnownHash` | src/filter/bloom.rs:120-139 | the published FNV-1a hash of one letter, and its second hash |
| `Bloom.KnownPositions` | src/filter/bloom.rs:38-41 | its first positions in a filter of seven keys |
| `Bloom.ProbeWraps` | src/filter/bloom.rs:39 | product and sum wrap at 32 bits before the position is cut down |
| `Bloom.NumBitsIs` | src/filter/bloom.rs:29 | ten bits for each key, 64 at least |
| `Bloom.FilterIff` | src/filter/bloom.rs:83-117 | bytes are a filter if and only if they hold a header and as many words as it announces |
| `Bloom.KnownFilter` | src/filter/bloom.rs:71-80 | a filter byte for byte |
| `Caches.BlockCache.Get` | src/cache/block_cache.rs:37-46 | a hit returns the cached block and moves its key to the front; a miss changes nothing |
| `Caches.BlockCache.Put` | src/cache/block_cache.rs:49-70 | the old version goes, keys are evicted from the back as far as needed, the block enters in front |
| `Caches.BlockCache.MakeRoom` | src/cache/block_cache.rs:59-65 | the eviction loop ends with the longest prefix of the order that leaves room |
| `Caches.EvictIsLongest` | src/cache/block_cache.rs:59-65 | eviction removes no more than needed |
| `Caches.StoredSound` | src/cache/block_cache.rs:49-70 | storing keeps order duplicate-free and equal to the keys, the size the sum, at most the capacity unless one oversized block remains, and the order a prefix of the most-recently-used list |
| `Caches.TraceSound` | src/cache/block_cache.rs:37-70 | after every trace of lookups and stores: no duplicates, the size is the sum, at most the capacity unless one oversized block remains |
| `Caches.RecentFirst` | src/cache/block_cache.rs:37-46 | after every trace, of two cached keys the one in front was named by the later operation |
| `Caches.EvictedIsOldest` | src/cache/block_cache.rs:59-65 | a key that a store evicts was last used before every key that stays |
| `Caches.EvictsForRoom` | src/cache/block_cache.rs:59-65 | a store evicts only for room: the next key in order would not have fitted |
| `Caches.StoredIsCached` | src/cache/block_cache.rs:67-69 | a stored block is cached, in front, whatever its size; a lookup evicts nothing |
| `Caches.LookedUpStays` | src/cache/block_cache.rs:37-70 | a key just looked up survives the next store that fits beside it |
| `Caches.HitIsLastStored` | src/cache/block_cache.rs:37-70 | a hit is the block stored last under its key |
| `Builders.BlocksPartition` | src/sstable/builder.rs:57-67 | cutting into blocks keeps the entries in order, leaves no block empty, and only single entries exceed the target size |
| `Builders.BlocksPacked` | src/sstable/builder.rs:57-62 | no block ends before the entry behind it would have taken it past the target size |
| `Builders.TableFilter` | src/sstable/builder.rs:83-85 | the filter of a table has ten bits for each key, 64 at least |
| `Builders.KnownTable` | src/sstable/builder.rs:72-95 | a table file of one entry byte for byte around its filter |
| `Builders.SSTableBuilder.Add` | src/sstable/builder.rs:57-67 | file, index, key list and current block are those of the entries added so far |
| `Builders.SSTableBuilder.FlushBlock` | src/sstable/builder.rs:102-113 | the block is appended, its offset and last key are indexed |
| `Builders.SSTableBuilder.WriteIndexBlock` | src/sstable/builder.rs:115-128 | the loop writes the index format |
| `Builders.SSTableBuilder.Finish` | src/sstable/builder.rs:72-95 | the file is data blocks, index, a filter marking exactly the keys, and the footer |
| `Builders.WriteTable` | src/engine.rs:527-531 | building a list of entries gives a file of the format for exactly those entries |
| `TableFormat.IndexRoundTrip` | src/sstable/reader.rs:122-163 | a written index parses back, whatever follows it |
| `TableFormat.LoadsBlock` | src/sstable/reader.rs:165-203 | each block of a written file loads as the entries it was written from |
| `TableFormat.ParseCases` | src/sstable/reader.rs:35-75 | which bytes open, are reported corrupt, or make the filter slice panic |
| `TableFormat.LoadCases` | src/sstable/reader.rs:165-203 | which bytes of the file a block is decoded from |
| `TableFormat.OnlyBlock` | src/sstable/reader.rs:77-96 | the first block whose last key is not less than the key is the only one that can hold it |
| `TableFormat.BuiltIsIntact` | src/sstable/builder.rs:72-95 | a file the builder wrote opens as a faithful copy of the sorted entries added |
| `TableFormat.IntactIteration` | src/sstable/reader.rs:108-115 | walking a faithful copy gives exactly its entries |
| `TableReaders.ParseIndexAt` | src/sstable/reader.rs:122-163 | the loop parses the index or rejects a truncated one |
| `TableReaders.OpenWithCache` | src/sstable/reader.rs:35-74 | opening succeeds, reports corruption, or panics on a filter offset beyond the footer, as the bytes say |
| `TableReaders.Search` | src/sstable/reader.rs:81-104 | binary search: a hit is a hit on any list, and on a sorted list the position splits it |
| `TableReaders.SSTableReader.LoadBlock` | src/sstable/reader.rs:165-203 | the block is that of the file, with or without a cache hit; the cache stays coherent and only gains blocks of this table |
| `TableReaders.SSTableReader.Get` | src/sstable/reader.rs:77-105 | on a faithful copy the value the map has, the same with every coherent cache and with none; on any table, damaged ones included, no value it does not hold, and errors only from blocks or filters that have them |
| `TableReaders.LoadingKeepsCoherence` | src/sstable/reader.rs:165-203 | loading blocks of one table keeps a shared cache coherent for every table |
| `TableReaders.SSTableIterator.Next` | src/sstable/reader.rs:217-237 | the next entry in order, or the end once none is left or a block cannot be read |
| `TableReaders.Entries` | src/engine.rs:436-447 | iterating a faithful copy yields exactly its entries |
| `TableReaders.FindInFile` | src/sstable/reader.rs:35-105 | end to end: opening a file written for any sorted entries within the codec bounds and looking a key up gives the value that was added, or none |
| `TableReaders.RoundTrip` | src/sstable/builder.rs:57-129 | such a file opens, iterates as exactly the entries, and the map that lookups answer from holds `k` with `v` exactly when that pair was added |
| `TableReaders.MapRoundTrip` | src/engine.rs:626-630 | a table written from a map reads back as that map, which is how the engine layer treats tables |
| `Manifests.ManifestRoundTrip` | src/manifest.rs:133-261 | a saved manifest loads with the same tables at the same positions, each level field 0 |
| `Manifests.SavedLevelsReload` | src/manifest.rs:207-235 | positions restore the levels exactly when every table sat at its own level |
| `Manifests.TornManifestRejected` | src/manifest.rs:155-261 | every proper prefix of a saved manifest is rejected |
| `Manifests.HeaderChecked` | src/manifest.rs:155-178 | a file with another magic or version is rejected |
| `Manifests.KnownManifest` | src/manifest.rs:133-152 | a manifest of one table byte for byte |
| `Manifests.Encode` | src/manifest.rs:133-152 | the nested loops write the manifest format |
| `Manifests.Decode` | src/manifest.rs:155-205 | the nested loops decode it, or reject magic, version and truncation |

## Left out

- Compaction crash points: old files are deleted before the manifest is saved (src/engine.rs:648-655), so no recovery theorem holds there; crash steps stop at the flush protocol.
- Appends after a torn log tail: `Wal.LostBehindTornByte` shows that they can be lost; histories are about log files cut between records, and those with torn bytes end at the reopen.
- `write_batch`: stores values without a sequence number and can have its log records truncated in mid-batch.
- `repair`, the `DB` mutex wrapper, metrics, `src/http/*`, `src/bin/*` and `benches/`: plumbing, or placeholder key ranges.
- Real files, fsync and I/O errors: a file is a byte sequence, the directory a map with atomic whole-file writes. Any records or bytes may be missing at the end of the log file; other files are complete.
- `SSTMeta.level` after loading: the loader leaves 0 and nothing reads it; the state machine keeps the level that the position says, which `Manifests.SavedLevelsReload` justifies.
- Engines.Engine.Open: takes manifest entries and table maps as decoded values, whose byte formats are proved in `Manifests` and `TableReaders`; a directory whose manifest lists a table without a file opens as the source opens it, but is not promised to be ready for compaction, where the source keeps the missing entry until it is compacted away.
- Engines.Engine.AppendLog: counts file and buffer in whole records, which `Wal.SpilledWhole` justifies; the sizes are those of the encoded records (`Wal.FrameSizesAre`).
- Engines.Engine.Put: asks for an engine whose manifest lists only tables with a file. The source also writes to others; a flush may then give a missing table's id to a new one, and a compaction counts the missing table's range, which the state machine does not have. Reads ask for no such thing.
- Engines.Engine.Delete: as for `Put`.
- Engines.Engine.PutWithTtl: as for `Put`.
- Engines.Engine.Close: as for `Put`.
- Reading tables in the engine: a reader's contents are a map, justified by `TableReaders.MapRoundTrip`; read errors inside get, scan and compaction are not propagated.
- CRC32 and `optimal_hashes`: an arbitrary function and an arbitrary count; false-positive rates are not claimed.
- `random_level`: its thread-local generator is a free choice below the maximum; expected cost is not claimed.
- Machine integers of the engine: `10^level`, `next_seq` and clock plus TTL are unbounded here; the u32 offsets of the builder and the u32 hashes do wrap.
- Clock reads: one operation reads the clock once, where the source may read it again while compacting.
- Skip-list node memory: allocation and freeing are Dafny's; `SkipLists.SkipList.Drop` states which nodes are visited.
- `HashMap`, `BTreeMap`, `BinaryHeap` and `binary_search_by`: modelled by their documented behaviour, on maps, sorted lists, a sequence and a search loop.
- Snapshots across a reopen: `next_seq` restarts at 1 (src/engine.rs:182), so snapshot statements are about one session.
- Snapshots.SnapshotStable: speaks of keys not written since the snapshot; for overwritten keys `Snapshots.SnapshotFinds` and `Snapshots.SnapshotShowsIff` say exactly what is found and when it is right.
- `src/version.rs`, `src/compaction/leveled.rs`, `src/sstable/iterator.rs`, `src/types.rs`, `src/error.rs`: placeholders or trivial wrappers.
