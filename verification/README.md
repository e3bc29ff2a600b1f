# FacetQL: a verified model of the storage core

FacetQL is a single-process graph database. This project models its storage stack and the
protocols around it in Dafny and proves what they promise over whole runs: crashes at any
moment, readers beside writers, logs that grow and rotate, and threads in any order.
`dafny verify dfyconfig.toml` checks all of it.

| part | files | what is proved |
|---|---|---|
| Copy-on-write B+tree | Bytes, Entries, Pages, Shape, Splice, Alloc, Graft, LeafEdit, TreeLoad, Crash, Pager, Walk, Prefix, Range, BTree, IndexTheorems, Slotted, PageBytes | put, remove and get refine a finite map; a crash at any moment of any run reopens to a whole published tree; a pinned snapshot never changes; seeks and range scans are exact; no operation is refused for depth before there have been 2^64; every page of a tree encodes to a body within its byte budget and reads back, edits in place are edits of its cells, and one damaged byte is refused |
| Commit frames, fence, recovery | Wal, Frames, LastWriter, Recovery, CommitLog, CommitProtocol, CommitTheorems | recovery rebuilds exactly the committed work that survives, if and only if storage has not run ahead of the synced log; every key ends as the last mutation of it in commit order left it |
| Change scan and event feed | Audiences, ChangeLog, Changes, Visibility, Rotation, ChangeTheorems, Restarts, Feed, HandOff | a page holds exactly what its viewer may know, and answers the same whatever hidden nodes hold; chained pages are exact or refused while the log grows and is rotated; a restart loses nothing and hides nothing, for clients of earlier processes too, exactly when no position handed out exceeds the restored counter; labels are the real state transitions, resumes have no gap, nothing falls between scan and feed |
| Predicates and planning | Exprs, EvalLaws, Planner, Extraction | the laws of every operator; what is extracted is exactly what the conjuncts require; narrowing by an index loses no answer, and exactly when it hides an error; validation is exact |
| Record frames and CRC | Crc, Framing | every file, cut or damaged or arbitrary, is classified exactly; one damaged byte is always reported |
| Metrics | Histogram, Cells | percentile error bound; every sample reported in exactly one window; every interleaving of the cell table |
| Limits and record cache | Limits, RecordCache | the capped table answers as an unbounded one; a request is allowed exactly when every window ending at it has room; the cache is a least-recently-used list |

How the foreign parts appear: the disk is a volatile page map, a synced page map and the
versions a crash may choose between; time, I/O outcomes, the samples and requests of other
threads, character lowering and text rendering of values are parameters; an encrypted payload
is opaque bytes.

## Where the code differs from what is said about it

- A snapshot pins the working root (src/storage/btree.rs:523-536), so it can show uncommitted
  writes. It is frozen exactly when that root is not a page of the generation being built:
  `IndexTheorems.FrozenView` one way, `IndexTheorems.DirtyRootMoves` the other.
- A range scan is exact, over everything a tree can store, exactly for cursors that are not short
  of the prefix range (`Range.CursorCondition`); for every other cursor two puts build a tree whose
  scan misses an entry (`IndexTheorems.RangeMissesTree`).
- A crash while an index file is first created can leave a file that does not open: after the
  first flush every such file is refused (`IndexTheorems.CrashDuringCreation`). Over all steps
  the file opens to the empty index exactly when it is still too short for the meta slots or its
  first meta page reads back (`IndexTheorems.CreationOpens`).
- The comments on `StagedCommit::commit` say it syncs. The code only appends
  (src/storage/wal.rs:1281-1315); the sync comes after the writer lock is released, and a
  checkpoint may write storage before it. `CommitTheorems.FlushedTooEarly` is a run in which
  half a transaction comes back after a crash; `CommitProtocol.CrashAnywhere` is the exact
  condition, and `CommitProtocol.Engine.Flush` says which flushes keep it.
- A standalone mutation whose apply fails has no fence (src/storage/engine.rs:742-748), so a
  later checkpoint can pass it: `CommitTheorems.LostWrite`, with the exact condition per key in
  `CommitTheorems.KeyRecovers`.
- An equality the planner narrows by may hide an evaluation error of an earlier conjunct
  (`Planner.EqualityHidesError`). It does so exactly for rows on which a conjunct in front of it
  fails while all before that one pass (`Planner.RejectedRow`), so in first place it never does
  (`Planner.LeftmostDecides`). Prefixes and substrings do the same (`Planner.PrefixRejectedRow`,
  `Planner.SubstringRejectedRow`).
- A refusal's retry hint is enough exactly when the burst admits a request at all
  (`Limits.RetryIsHonest`).
- A resume and the live stream together miss nothing and repeat nothing exactly for positions
  the counter has already handed out when subscribing (`Feed.NoGap`).
- The feed says that a token from an earlier process is refused because recovery has moved the
  counter past every position that process handed out (src/database.rs:478-483). Recovery moves
  it past the log and the checkpoint only (src/storage/recovery.rs:90, 190), and events are not
  logged. `Feed.EventLost` is a run in which an event is never delivered; every resume is refused
  or complete exactly when no earlier event lies past the restored counter (`Feed.Restart`,
  `Feed.ResumeAcrossRestart`).
- A scan the horizon lets through is said to miss nothing that was rotated away. After a restart
  on an emptied log, positions continue from the checkpoint, which counts sequence numbers, so
  they can fall below dropped ones: `Restarts.ChangeLost` is such a run. No served scan loses a
  record exactly when every dropped position is at most the horizon of the log that is left
  (`Rotation.RotationLosesNothing`); `Rotation.RotationMeets` and `Restarts.RestartMeets` say which
  rotations and restarts meet that.
- New identifiers are said not to collide with those of an earlier process
  (src/storage/wal.rs:594-598). They can: in `Restarts.PositionReused` nothing dropped is lost, yet
  a client that had paged to completion is served without the change that got its position again.
  After a restart a client at a position handed out before is refused or sees every new record
  exactly when that position lies strictly below the first of them (`Restarts.ResumeExact`), which
  every restart grants exactly when it is at most the restored counter (`Restarts.RestartResumes`).
  The feed shares the counter and the condition (`Restarts.FeedResumes`).
- A scan shows records that are not synced yet, so a crash can take back what was served and give
  its position to another change: `Restarts.ServedThenLost`. A served change survives every crash
  exactly when its record, or the COMMIT of its frame, was synced (`Restarts.ServedSurvives`).
- A resume at the position where the pages of a scan end is refused for as long as nothing has
  been logged since the process started, not only on a busy instance
  (`HandOff.PageThenResume`). Subscribing first is never refused.

## Model

| member | source | states |
|---|---|---|
| `Bytes.LtMeaning` | src/storage/btree.rs:1323-1379 | keys are ordered by the first byte in which they differ, a proper prefix first |
| `Pages.SplitPoint` | src/storage/btree.rs:1392-1424 | a returned cut leaves two non-empty halves that fit; none is returned only when no cut does; an overfull list of cells of which a page holds three is never cut in front of its last one |
| `Pages.SplitExists` | src/storage/btree.rs:1392-1430 | an overfull list has such a cut whenever the capacity is at least three times the largest cell and slot |
| `Pages.LeafSearch` | src/storage/btree.rs:1362-1379 | the key's index, or where it would go, with everything before below it and everything after above it |
| `Pages.Route` | src/storage/btree.rs:1323-1337 | the child past exactly the separators at or below the key |
| `Entries.PutMeaning` | src/storage/btree.rs:837-890 | inserting into a sorted entry list is updating the finite map it stands for |
| `Entries.DelMeaning` | src/storage/btree.rs:1054-1086 | deleting from it is removing the key from that map |
| `Splice.Splice` | src/storage/btree.rs:976-1051 | replacing one child of a branch by one or two keeps the subtree well formed and splices exactly the new entries in |
| `Splice.Drop` | src/storage/btree.rs:1133-1153 | dropping an emptied child keeps the branch well formed and loses no entry |
| `Alloc.ReuseGrown` | src/storage/btree.rs:435-447 | a reused page is one no live tree, pinned snapshot or published meta can reach |
| `Alloc.ReleaseGrown` | src/storage/btree.rs:450-461 | freeing a page keeps the generation stamps that hold its reuse back |
| `LeafEdit.OverfullCuts` | src/storage/btree.rs:918-974 | a leaf the insert overfills can always be cut in two that fit |
| `Graft.OverfullBranchCuts` | src/storage/btree.rs:976-1051 | so can a branch |
| `TreeLoad.LightTwo` | src/storage/btree.rs:1019-1048 | a branch split frees two separators of its level, which pay for the one it adds to the next |
| `Crash.CrashReopens` | src/storage/btree.rs:260-312 | from any disk image a crash can leave, opening picks the last published meta or the one being published, and its tree is whole |
| `Crash.NewestMetaLost` | src/storage/btree.rs:353-361 | with the newest meta page unreadable, opening falls back to the previous generation's meta page, and its tree and free list are in order |
| `Crash.FallbackSurvives` | src/storage/btree.rs:371-407 | every crash image keeps the previous generation to fall back on, unless the meta page being written over it tore |
| `Crash.WriteKeeps` | src/storage/pager.rs:182-190 | writing a page neither published tree reaches keeps both recoverable, however early it is evicted |
| `Crash.MetaKeeps` | src/storage/btree.rs:371-407 | writing the meta page over the older slot, torn or not, keeps the current tree recoverable |
| `Crash.PublishKeeps` | src/storage/btree.rs:371-407 | once that meta page is flushed the new tree is the published one and the old one the fallback |
| `PagerModel.Pager.Write` | src/storage/pager.rs:182-190 | a write outside the guarded pages keeps every moment recoverable and every pin intact |
| `PagerModel.Pager.Flush` | src/storage/pager.rs:199-214 | a flush makes everything written durable and completes a publication in progress |
| `PagerModel.Pager.WriteMeta` | src/storage/btree.rs:371-407 | the next generation's meta page goes to the alternate slot only after its tree is durable |
| `Walk.Descend` | src/storage/btree.rs:574-593 | the walk ends at the leaf whose key interval contains the key, or reports a tree deeper than 64 |
| `Walk.GetAt` | src/storage/btree.rs:561-571 | exactly the value stored under the key |
| `Walk.EdgeEntry` | src/storage/btree.rs:703-763 | the first or last entry of a subtree |
| `Walk.Climb` | src/storage/btree.rs:605-695 | trying one neighbour per level finds the nearest entry on that side, because only a root leaf may be empty |
| `Walk.SeekAt` | src/storage/btree.rs:605-695 | the true nearest entry in all four modes |
| `Prefix.PrefixUpperBound` | src/storage/btree.rs:1451-1462 | the bound with trailing 0xff bytes dropped, or none |
| `Prefix.UpperBounds` | src/storage/btree.rs:1451-1462 | that bound separates exactly the keys with the prefix from those above them |
| `Range.RangeAt` | src/storage/btree.rs:784-830 | the entries past the cursor while they keep the prefix, up to where the visitor stops |
| `Range.RangeExact` | src/storage/btree.rs:784-830 | for a cursor not short of the range these are exactly the entries with the prefix strictly past it, in order, also in reverse, for all-0xff prefixes and for cursors and prefixes longer than any key |
| `Range.RangeMisses` | src/storage/btree.rs:784-830 | for any other cursor there are two entries a put accepts of which the scan visits none although one is wanted |
| `Range.CursorCondition` | src/storage/btree.rs:784-830 | so the cursor condition is exact over every list of entries a put accepts |
| `BTreeModel.BTree.Reopen` | src/storage/btree.rs:260-312 | opening a settled image gives a valid tree with the published entries that still guards the generation before |
| `BTreeModel.BTree.Create` | src/storage/btree.rs:314-347 | a new index is a valid empty tree, on the disk that leaf write, flush, meta write and flush leave |
| `BTreeModel.BTree.Allocate` | src/storage/btree.rs:435-447 | the first reusable page of the free list, or a new one at the end of the file when none is; it was not dirty, and nothing durable or pinned reaches it |
| `BTreeModel.BTree.Release` | src/storage/btree.rs:450-461 | the page is stamped free for the generation being built, or leaked when the list is full |
| `BTreeModel.BTree.Cow` | src/storage/btree.rs:467-480 | a page of this generation is edited in place; any other gets a fresh copy and is freed, or leaked when the list is full |
| `BTreeModel.BTree.InsertIntoLeaf` | src/storage/btree.rs:918-974 | one or two leaves that together hold the old entries with the new one put in, each within the page budget |
| `BTreeModel.BTree.InsertIntoBranch` | src/storage/btree.rs:976-1051 | one or two branches that do, through child splits and a branch split |
| `BTreeModel.BTree.InsertInto` | src/storage/btree.rs:892-916 | the same for any subtree, or a depth error that changes nothing |
| `BTreeModel.BTree.Put` | src/storage/btree.rs:837-890 | the tree's entries become exactly the old ones with the key put; oversized input and excessive depth change nothing; nothing published is disturbed; what the tree weighs grows by at most one |
| `BTreeModel.BTree.RemoveFrom` | src/storage/btree.rs:1088-1168 | the subtree without the key, reporting emptiness so that no non-root leaf stays empty |
| `BTreeModel.BTree.Collapse` | src/storage/btree.rs:1054-1086 | a root with one child is replaced by it until none is left, keeping the entries |
| `BTreeModel.BTree.Remove` | src/storage/btree.rs:1054-1086 | the entries become exactly the old ones without the key, and the result says whether it was there; what the tree weighs grows by at most one |
| `BTreeModel.BTree.Commit` | src/storage/btree.rs:371-407 | the generation advances, the working tree becomes the published one, and every moment on the way is recoverable |
| `BTreeModel.BTree.Get` | src/storage/btree.rs:561-571 | the value of the key in the working tree |
| `BTreeModel.BTree.Seek` | src/storage/btree.rs:605-695 | the nearest entry of the working tree |
| `BTreeModel.BTree.TakeSnapshot` | src/storage/btree.rs:523-536 | the reader is counted, and pinned exactly when its root is not being built |
| `BTreeModel.BTree.ReleaseSnapshot` | src/storage/btree.rs:539-551 | exactly that reader is uncounted and unpinned |
| `IndexTheorems.CrashAnywhere` | src/storage/btree.rs:260-312 | at every moment of every run, every crash image opens to the tree published last or the one being published, whole |
| `IndexTheorems.Restart` | src/storage/btree.rs:260-312 | and the reopened tree is a valid working tree with exactly those entries, one step back still in reach |
| `IndexTheorems.RestartOneBack` | src/storage/btree.rs:353-361 | if the newest meta page is lost as well, the generation before opens as a valid working tree with its own entries |
| `IndexTheorems.CreationOpens` | src/storage/btree.rs:260-347 | whatever a crash at any step of creation leaves opens to the empty index if and only if the file is still short of the meta slots or its first meta page reads back; otherwise it is refused |
| `IndexTheorems.OpenCreated` | src/storage/btree.rs:260-347 | in exactly those cases opening yields a valid empty working tree |
| `IndexTheorems.CrashDuringCreation` | src/storage/btree.rs:314-347 | after the first flush and before the meta page is written, every file a crash leaves is refused |
| `IndexTheorems.InterleavedRead` | src/storage/btree.rs:187-236 | pages read at any different moments since the pin form the pinned tree |
| `IndexTheorems.FrozenView` | src/storage/btree.rs:523-551 | a pinned view holds unchanged at every later moment, under any puts, removes, commits and other snapshots |
| `IndexTheorems.SnapshotGet` | src/storage/btree.rs:561-571 | a snapshot's lookup answers from the entries it was taken at |
| `IndexTheorems.SnapshotSeek` | src/storage/btree.rs:605-695 | so does its seek |
| `IndexTheorems.SnapshotRange` | src/storage/btree.rs:784-830 | and its range scan |
| `IndexTheorems.RangeMissesTree` | src/storage/btree.rs:784-830 | for every cursor short of the prefix range, a tree built by two puts whose scan visits nothing although an entry is wanted |
| `IndexTheorems.DirtyRootMoves` | src/storage/btree.rs:523-536 | a snapshot of a root being built is changed by one more operation |
| `IndexTheorems.CounterIsSize` | src/storage/btree.rs:837-890 | the entry counter is the size of the map |
| `IndexTheorems.Operate` | src/storage/btree.rs:85-104 | however many operations run, two to the power of the height is at most what the tree weighed plus their number |
| `IndexTheorems.ReopenLighter` | src/storage/btree.rs:260-312 | a crash and a restart add nothing to what a tree weighs |
| `IndexTheorems.NeverTooDeep` | src/storage/btree.rs:85-104 | from creation on, no operation is refused for depth before there have been 2^64 |
| `IndexTheorems.EveryPageFits` | src/storage/btree.rs:837-1168 | cells and slots of every page of a tree that puts and removes left, counted in encoded bytes, take at most a body less its header |
| `IndexTheorems.WriteOut` | src/storage/btree.rs:1432-1446 | so every such page has a body, and the body reads back as the page |
| `Slotted.KindOf` | src/storage/page.rs:118-139 | a byte names a kind exactly when it is that kind's byte |
| `Slotted.ReclaimableSpace` | src/storage/page.rs:253-257 | exactly what is left of the page's budget once cells and slots are counted |
| `Slotted.Repacked` | src/storage/page.rs:264-283 | the same cells under the same slot numbers, and no hole between them |
| `Slotted.RawPage.constructor` | src/storage/page.rs:154-165 | an empty page of the kind |
| `Slotted.RawPage.SetExtra` | src/storage/page.rs:182-184 | the auxiliary word alone changes |
| `Slotted.RawPage.Cell` | src/storage/page.rs:234-242 | the cell of a slot, or nothing past the last |
| `Slotted.RawPage.Compact` | src/storage/page.rs:264-283 | no cell changes and all free bytes are contiguous |
| `Slotted.RawPage.InsertCell` | src/storage/page.rs:288-323 | works exactly when the index is in range and cells and slots still fit together, whatever the holes; then the cell list has exactly that cell more, otherwise nothing changed |
| `Slotted.RawPage.PushCell` | src/storage/page.rs:327-335 | the same at the end |
| `Slotted.RawPage.ReplaceCell` | src/storage/page.rs:339-368 | works exactly when the new cell fits in place of the old one; when it does not, the old cell is gone |
| `Slotted.RawPage.RemoveCell` | src/storage/page.rs:375-390 | exactly that cell leaves the list |
| `Slotted.RawPage.Encode` | src/storage/page.rs:393-404 | the sealed body passes every check of the decoder and shows the same page |
| `Slotted.Check` | src/storage/page.rs:411-492 | accepts exactly bodies of the right length, magic, version, a known kind and the right checksum whose slots all point between the free end and the end |
| `Slotted.Decode` | src/storage/page.rs:411-492 | a page over exactly the bytes given, or none |
| `Slotted.LayoutOf` | src/storage/page.rs:26-43 | where every field of an accepted body stands, byte by byte |
| `Slotted.SealedAcceptable` | src/storage/page.rs:393-404 | writing the checksum makes the body acceptable and changes no cell |
| `Slotted.DamageRefused` | src/storage/page.rs:411-492 | any one damaged byte of an accepted body, in the checksum field or not, is refused |
| `Slotted.BuildPage` | src/storage/btree.rs:1432-1446 | filling a new page works exactly when cells and slots fit together, and then shows exactly those cells |
| `PageBytes.CellLayout` | src/storage/btree.rs:1237-1297 | where the key length, the child, the key and the value stand in a cell |
| `PageBytes.LeafCellBack` | src/storage/btree.rs:1251-1287 | a leaf cell gives back key and value if and only if the key length fits sixteen bits |
| `PageBytes.BranchCellBack` | src/storage/btree.rs:1289-1319 | a branch cell gives back its child, and its key under the same condition |
| `PageBytes.EncodeMeta` | src/storage/btree.rs:1184-1202 | the loop writes the fixed fields and then the free list |
| `PageBytes.DecodeMeta` | src/storage/btree.rs:1204-1233 | reads them back, or refuses another magic and a record shorter than it says |
| `PageBytes.MetaBack` | src/storage/btree.rs:1184-1233 | a meta record reads back, its free list cut at 1024 entries |
| `PageBytes.ParsedBack` | src/storage/btree.rs:1237-1319 | a page's kind, auxiliary word and cells give back the page |
| `PageBytes.StoredSize` | src/storage/btree.rs:1426-1430 | a page is within the tree's budget if and only if its encoded cells and slots take at most a body less its header |
| `PageBytes.TreeStores` | src/storage/btree.rs:918-1168 | every page a well-formed tree reaches is within its budget |
| `PageBytes.StorePage` | src/storage/btree.rs:1432-1446 | a body is built exactly for pages within the budget, and reads back as the page |
| `PageBytes.LoadPage` | src/storage/page.rs:411-492 | what any bytes are read back as |
| `PageBytes.PutInPlace` | src/storage/btree.rs:926-944 | the entry goes in without a split exactly when the new entry list fits; the bytes then show that list, and otherwise the old one |
| `PageBytes.RemoveInPlace` | src/storage/btree.rs:1110-1116 | the bytes then show the list without the entry |
| `PageBytes.SetBranchChild` | src/storage/btree.rs:1347-1358 | the bytes then show the branch with that child, which always fits |
| `PageBytes.InsertBranchCell` | src/storage/btree.rs:1009-1015 | a separator and child go in exactly when the branch still fits |
| `PageBytes.DropChild` | src/storage/btree.rs:1142-1153 | an emptied child goes with its separator, the leftmost one promoting its neighbour |
| `Wal.ReplayExactly` | src/storage/recovery.rs:875-900 | replaying effects over storage gives the intended state exactly when storage differs from the intended start only on keys those effects write |
| `Wal.ReplayOverPrefix` | src/storage/recovery.rs:875-900 | replay over storage that already holds any prefix of the effects gives the same state |
| `Wal.EffectsConcat` | src/storage/recovery.rs:297-407 | a log's effects split where no transaction straddles the cut |
| `Frames.CommitOnce` | src/storage/recovery.rs:542-777 | in an accepted log a transaction's COMMIT is unique and its last record |
| `Frames.JudgeFront` | src/storage/recovery.rs:542-777 | cutting a frame short makes it incomplete, never impossible |
| `LastWriter.FoldFollows` | src/storage/recovery.rs:875-900 | over any list of effects every key holds what the last effect on it left, or what it held before |
| `LastWriter.ReplayLeaves` | src/storage/recovery.rs:297-407 | replay past a checkpoint leaves every key as the last mutation of it in commit order did, staged mutations counting where their COMMIT stands, and every other key alone |
| `Recovery.ClassifyTransaction` | src/storage/recovery.rs:542-777 | committed exactly for BEGIN, mutations, COMMIT; discarded when cut short, aborted or promising nothing; refused otherwise |
| `Recovery.ClassifyTransactions` | src/storage/recovery.rs:450-512 | exactly the committed transactions with their COMMIT positions; a log is refused exactly when it is impossible |
| `Recovery.Replay` | src/storage/recovery.rs:297-407 | the buffered walk applies standalone mutations in place and each transaction whole at its COMMIT |
| `Recovery.ValidateSequence` | src/storage/recovery.rs:801-870 | accepts exactly positive, strictly increasing positions |
| `Recovery.Recover` | src/storage/recovery.rs:62-276 | refuses an impossible log; otherwise every key holds what the last mutation past the checkpoint, in commit order, left there, and what storage held where there is none |
| `CommitProtocol.Engine.constructor` | src/storage/recovery.rs:62-108 | a fresh database has committed nothing |
| `CommitProtocol.Engine.Open` | src/storage/commit.rs:130-147 | BEGIN is appended under a fresh id and a fence is raised at it; a failed append leaves no frame and no fence |
| `CommitProtocol.Engine.Stage` | src/storage/commit.rs:168-198 | a mutation is logged under the frame's id with no effect yet; control records and committed frames are refused |
| `CommitProtocol.Engine.Commit` | src/storage/commit.rs:218-230 | what is committed grows by exactly the staged mutations, in order, and only once |
| `CommitProtocol.Engine.ApplyNext` | src/storage/transaction.rs:365-371 | the frame's next mutation reaches memory: its key holds its value, or nothing if it deletes, and no other key moves; a failure drops the frame and keeps its fence |
| `CommitProtocol.Engine.Settle` | src/storage/commit.rs:257-272 | a fully applied frame, the last mutation of each of its keys showing in memory, releases its fence; an uncommitted one is refused and disposed of |
| `CommitProtocol.Engine.Drop` | src/storage/commit.rs:290-326 | an uncommitted frame releases its fence, a committed one keeps it, and nothing committed changes |
| `CommitProtocol.Engine.Write` | src/storage/engine.rs:728-749 | a logged standalone mutation is committed and leaves its value, or nothing, at its key alone; if its apply fails the key is marked as owed by the log alone |
| `CommitProtocol.Engine.Sync` | src/storage/wal.rs:793-848 | after a sync storage is behind the log again |
| `CommitProtocol.Engine.Flush` | src/storage/engine.rs:830-834 | storage stays behind the log exactly when each flushed key is rewritten by a synced record past the checkpoint or has its checkpoint value |
| `CommitProtocol.Engine.Advance` | src/storage/checkpoint.rs:334-345 | the checkpoint moves to the noted position or as far as the lowest fence lets it, never back, and nothing committed changes |
| `CommitProtocol.Engine.Rotate` | src/storage/wal.rs:1418-1505 | dropping the records at or below the checkpoint changes nothing recovery rebuilds |
| `CommitProtocol.Engine.Crash` | src/storage/recovery.rs:62-276 | after a crash that takes any part of the unsynced log recovery starts, what is committed is exactly what survives, and the restarted counters clear the log and the checkpoint |
| `CommitProtocol.CrashAnywhere` | src/storage/commit.rs:26-57 | at every moment of every run, recovery rebuilds exactly the surviving committed work for every possible loss, if and only if storage has not run ahead of the synced log |
| `CommitProtocol.SurvivorsNested` | src/storage/commit.rs:38-57 | what survives is a prefix of what was committed and contains all that was synced |
| `CommitTheorems.Transact` | src/storage/transaction.rs:334-376 | whatever write fails, a batch is committed whole or not at all, and only a failure after COMMIT leaves a fence |
| `CommitTheorems.WholeFrames` | src/storage/commit.rs:38-57 | a committed frame is among the surviving effects with every mutation in order if its COMMIT survives, and with none otherwise |
| `CommitTheorems.KeyRecovers` | src/storage/recovery.rs:199-214 | a key gets its committed value exactly when a surviving effect past the checkpoint writes it or storage holds its checkpoint value |
| `CommitTheorems.MemoryFollows` | src/storage/recovery.rs:875-900 | with no fence standing, every key not owed by the log holds in memory what the last committed mutation of it left, and nothing where there was none |
| `CommitTheorems.CheckpointOutside` | src/storage/checkpoint.rs:106-135 | the checkpoint is below every fence and never has one transaction on both sides |
| `CommitTheorems.FlushedTooEarly` | src/storage/engine.rs:830-836 | a run in which a flush before the sync brings half a transaction back |
| `CommitTheorems.LostWrite` | src/storage/engine.rs:728-749 | a run in which the checkpoint passes a standalone mutation whose apply failed |
| `ChangeLog.SettledAscends` | src/storage/changes.rs:376-394 | the settled changes carry strictly increasing positions |
| `Changes.DurableUnit` | src/storage/changes.rs:402-416 | a standalone record alone, or the whole run of one transaction |
| `Changes.ValidatePositions` | src/storage/changes.rs:376-394 | accepts exactly strictly increasing positions |
| `Changes.EmitUnit` | src/storage/changes.rs:515-566 | appends exactly the unit's visible changes after the position |
| `Changes.UnitSettles` | src/storage/changes.rs:433-463 | what a committed, terminal or in-flight unit adds to what the log has settled up to its end |
| `Changes.Scan` | src/storage/changes.rs:264-341 | for every log: refused exactly below the horizon or when the log cannot be explained; otherwise the visible changes of committed frames after the position up to the end of the first unit that reaches the limit, or all of them if none does; without that unit the page is short of the limit |
| `Changes.PageUnique` | src/storage/changes.rs:264-341 | no other page meets that |
| `Visibility.UnitShows` | src/storage/changes.rs:515-566 | a unit shows a viewer exactly those changes of its records whose subject they may see: the node written, or for a delete the state archived for it |
| `Visibility.SettledShows` | src/database.rs:353-359 | a change is shown if and only if a record of a committed unit after the position makes it and its subject is public, the viewer's own, or anyone's to an administrator |
| `Visibility.ScanShows` | src/storage/changes.rs:264-341 | a served page holds only what the viewer may see, and a complete one all of it |
| `Visibility.ScanBoth` | src/database.rs:353-359 | two logs that differ only in what private nodes of other owners hold answer every scan alike |
| `Changes.FramesAreUnits` | src/storage/changes.rs:402-416 | where frames are contiguous, as the writer lock makes them, those changes are the ones of the committed units |
| `ChangeTheorems.GrowthKeeps` | src/storage/changes.rs:433-463 | appending to the log only appends to what it has settled, also when a frame in flight commits later |
| `ChangeTheorems.ChainExact` | src/storage/changes.rs:264-341 | chained scans of a log that grows and is rotated gather every visible change settled in its full history after the first position exactly once and in order; every incomplete page makes progress, and a call is refused exactly below the horizon, which leaves what was gathered whole |
| `Rotation.RotationExact` | src/storage/changes.rs:359-365 | after a rotation every scan served sees all of a viewer's changes if and only if none of the dropped ones lies past the horizon of the log that is left |
| `Rotation.RotationLosesNothing` | src/storage/changes.rs:359-365 | no served scan loses a record if and only if every dropped position is at most that horizon; then no viewer loses a change |
| `Rotation.RotationMeets` | src/storage/wal.rs:1418-1505 | a rotation meets this whatever the checkpoint, while records are appended, and over a restart as long as a record was left |
| `Rotation.RotateKeeps` | src/storage/wal.rs:1418-1505 | a rotation that cuts no frame keeps the full history, leaves nothing dropped past the horizon, and never moves the horizon back |
| `Rotation.AppendKeeps` | src/storage/changes.rs:359-365 | so does appending, to an emptied file too |
| `Rotation.ServedWhole` | src/storage/changes.rs:264-341 | a served scan of the file shows what a scan of the full history would |
| `Restarts.RestartMeets` | src/storage/recovery.rs:90-95 | on a log emptied by a checkpoint the first record of the next process is the horizon; no dropped record is lost, whatever the restart, if and only if no dropped position exceeds the checkpoint by more than two |
| `Restarts.ResumeExact` | src/storage/changes.rs:264-341 | after a restart a client at a position is refused or covers every new record if and only if the position lies strictly below the first of them |
| `Restarts.ViewerResumes` | src/storage/changes.rs:264-341 | and every change a viewer may see of them if and only if it lies strictly below the first such change |
| `Restarts.RestartResumes` | src/storage/wal.rs:594-619 | whatever the new process appends, that holds if and only if the position is at most the restored counter |
| `Restarts.EmptiedResumes` | src/storage/recovery.rs:90-95 | on an emptied log it holds for every dropped position if and only if none exceeds the checkpoint by more than one |
| `Restarts.FeedResumes` | src/database.rs:457-483 | on the new feed a position handed out before is refused or covers every event emitted, under exactly the same condition |
| `Restarts.RestartSafe` | src/storage/recovery.rs:62-194 | every restart loses nothing dropped and hides nothing new if and only if every position handed out before is at most the restored counter |
| `Restarts.RestartTidy` | src/storage/recovery.rs:62-194 | after such a restart the chained pages go on over the same full history |
| `Restarts.ChangeLost` | src/storage/changes.rs:359-365 | a run in which a restart on an emptied log makes a served, complete scan miss a dropped change and a new one |
| `Restarts.PositionReused` | src/storage/changes.rs:359-365 | a run in which nothing dropped is lost, yet a client that had paged to completion never sees the change that got its position again |
| `Restarts.CutSettles` | src/storage/changes.rs:433-463 | a settled change is still settled in a shorter log if and only if its whole unit is in there |
| `Restarts.ServedSurvives` | src/storage/changes.rs:264-341 | a served change survives every crash if and only if its record, or the COMMIT of its frame, was synced |
| `Restarts.ServedThenLost` | src/storage/changes.rs:264-341 | a run in which a crash takes served changes back, one of their positions goes to another, and a resuming client is served without it |
| `ChangeTheorems.UnitLabels` | src/storage/changes.rs:515-566 | under archive-before-overwrite-or-delete, a unit's labels are the transitions of the stored nodes, delete-then-recreate included |
| `ChangeTheorems.LabelsExact` | src/storage/changes.rs:485-566 | the same over whole logs, each delete attributed to the state it removed |
| `Feed.EventFeed.constructor` | src/database.rs:470-486 | a new feed is empty and its horizon is the first position the counter hands out |
| `Feed.EventFeed.Emit` | src/database.rs:517-553 | the event gets the next position, and the ring stays the end of the events emitted, as long as fits, with the horizon at the last one evicted |
| `Feed.EventFeed.Subscribe` | src/database.rs:562-588 | refused exactly below the horizon; otherwise the backlog is every event of this process past the position |
| `Feed.NoGap` | src/database.rs:562-588 | backlog followed by live events is every event past the position, however the feed goes on, if and only if the position is below the counter when subscribing |
| `Feed.Follow` | src/database.rs:517-553 | the feed reaches every such continuation |
| `Feed.Watch` | src/database.rs:562-588 | a subscription and what follows it: refused exactly below the horizon, otherwise exactly the events past the position |
| `Feed.Restored` | src/storage/recovery.rs:88-194 | the counter restarts one past the checkpoint or the largest position left in the log |
| `Feed.ResumeAcrossRestart` | src/database.rs:457-466 | counting the events of earlier processes, every granted resume is complete if and only if none of those lies past the horizon |
| `Feed.Restart` | src/storage/wal.rs:600-644 | a restarted process starts at the restored counter, and its resumes are complete if and only if no earlier event lies past that |
| `Feed.CompleteEverAfter` | src/database.rs:457-466 | and then they stay so for its whole life |
| `Feed.EventLost` | src/database.rs:478-483 | a run in which a restart makes a granted resume miss an event, whose position is then used again |
| `HandOff.RunKeeps` | src/api/routes.rs:1053-1061 | in every run of appends, rotations and publications the full history and the feed only grow and later events have later positions |
| `HandOff.Server.Append` | src/storage/wal.rs:554-559 | a record takes the next number of the counter the feed shares |
| `HandOff.Server.Rotate` | src/storage/wal.rs:1418-1505 | exactly the records at or below the checkpoint leave the file, the full history stays, and the horizon never moves back |
| `HandOff.Server.Elsewhere` | src/storage/wal.rs:554-559 | a history version only moves the counter |
| `HandOff.Server.Publish` | src/api/routes.rs:1053-1061 | a settled change is announced by the next event of the feed |
| `HandOff.Server.Page` | src/storage/changes.rs:264-341 | refused exactly below the log's horizon, never for a log that cannot be explained, otherwise a page of what is settled now |
| `HandOff.Server.Events` | src/database.rs:562-588 | refused exactly below the feed's horizon, otherwise the backlog past the position |
| `HandOff.PageThenResume` | src/api/routes.rs:2700-2710 | a resume where a page ends is refused exactly below the feed's horizon, and always while nothing has been logged since the process started |
| `HandOff.ScanThenSubscribe` | src/api/routes.rs:2700-2710 | after paging to completion, a granted resume where the pages ended yields every later event; each change the viewer may see was in the pages, or is not yet announced, or its event is among them |
| `HandOff.SubscribeThenScan` | src/api/routes.rs:2686-2721 | with the subscription opened first, each change the viewer may see was in the pages, or is not yet announced, or its event came live and past where the pages ended |
| `Exprs.ValidateAt` | src/core/predicate.rs:177-208 | succeeds exactly when subtree size and height fit, and spends exactly the size |
| `Exprs.Validate` | src/core/predicate.rs:171-175 | succeeds exactly on trees of at most 256 nodes and 64 levels |
| `Exprs.DepthSuffices` | src/core/predicate.rs:210-338 | evaluating a predicate within the depth bound never fails for depth |
| `EvalLaws.AnyDepth` | src/core/predicate.rs:210-338 | while depth suffices a predicate evaluates to the same at any depth |
| `EvalLaws.Trichotomy` | src/core/predicate.rs:382-491 | on numbers exactly one of less, equal and greater holds, and is the order of the numbers |
| `EvalLaws.Negations` | src/core/predicate.rs:382-491 | at most is not greater, at least is not less |
| `EvalLaws.OrderNeedsNumbers` | src/core/predicate.rs:493-500 | an order test errs if and only if a side is not a number |
| `EvalLaws.Successor` | src/core/predicate.rs:382-491 | a number is less than itself plus one |
| `EvalLaws.Sums` | src/core/predicate.rs:382-491 | minus undoes plus, and plus commutes |
| `EvalLaws.Products` | src/core/predicate.rs:382-491 | division undoes multiplication and errs exactly on zero; multiplication commutes and distributes over plus |
| `EvalLaws.Remainder` | src/core/predicate.rs:382-491 | the remainder is smaller than the divisor, has the sign of the dividend, and leaves a multiple; it errs exactly on zero |
| `EvalLaws.Minus` | src/core/predicate.rs:252-271 | a number plus its negation is zero |
| `EvalLaws.FalseOnes` | src/core/predicate.rs:512-520 | exactly false and null count as false |
| `EvalLaws.Negation` | src/core/predicate.rs:252-271 | negation turns exactly those into true, and passes an error on |
| `EvalLaws.ShortCircuit` | src/core/predicate.rs:273-307 | a side that decides hides the other, errors included; otherwise the other decides |
| `EvalLaws.DeMorgan` | src/core/predicate.rs:273-307 | negated conjunctions are disjunctions of negations and the other way round, errors included |
| `EvalLaws.Equality` | src/core/predicate.rs:522-554 | equality is sameness, numbers compared by value; inequality is its negation |
| `EvalLaws.Membership` | src/core/predicate.rs:382-491 | membership is equality with some item, refused exactly for what is not an array or has more than a thousand items |
| `EvalLaws.TextTests` | src/core/predicate.rs:382-491 | starting, ending and containing mean that the text is the other with something behind it, in front of it, or around it |
| `EvalLaws.Joining` | src/core/predicate.rs:382-491 | plus on texts is concatenation, refused exactly past 65536 bytes |
| `EvalLaws.Lowering` | src/core/predicate.rs:340-380 | lowering maps text character by character, null to nothing, truth values and numbers by their text |
| `EvalLaws.FieldIs` | src/core/predicate.rs:227-250 | a field is its value in the row, or null |
| `EvalLaws.LiteralIs` | src/core/predicate.rs:556-578 | a literal is its value, cast as its declared type says |
| `Planner.CollectSubstrings` | src/core/predicate.rs:732-782 | pushes exactly the literals the conjuncts test on the field |
| `Planner.EqualitySound` | src/core/predicate.rs:797-854 | if an equality is extracted, every row that passes holds an equal value |
| `Planner.PrefixSound` | src/core/predicate.rs:641-671 | if a prefix is extracted, every passing row's field is text starting with it |
| `Planner.SubstringsSound` | src/core/predicate.rs:732-782 | every extracted literal is contained in every passing row's text, or lowered text |
| `Extraction.EqualityExact` | src/core/predicate.rs:797-854 | the equality extracted is that of the first conjunct within the depth bound that compares the field with a literal other than null, on either side; none is extracted only if there is none |
| `Extraction.PrefixExact` | src/core/predicate.rs:641-671 | the same for the first conjunct that tests the field for a non-empty literal prefix |
| `Extraction.SubstringsExact` | src/core/predicate.rs:732-782 | a text is extracted if and only if some conjunct tests the field, or the field lowered, for it at the start, at the end or anywhere |
| `Planner.RejectedRow` | src/core/predicate.rs:797-823 | in a validated predicate a row the extracted equality rejects evaluates to an error if and only if a conjunct in front of it does while all before that one pass, and to false otherwise |
| `Planner.RejectedRowAnyDepth` | src/core/predicate.rs:797-823 | in any predicate the one other way is an equality whose sides lie past the depth bound, reached with every conjunct in front passing |
| `Planner.PrefixRejectedRow` | src/core/predicate.rs:641-671 | the same for a row without the extracted prefix and the conjuncts in front of that test |
| `Planner.SubstringRejectedRow` | src/core/predicate.rs:732-782 | and for a row whose text, lowered or not, lacks any one of the extracted substrings |
| `Planner.LeftmostDecides` | src/core/predicate.rs:797-823 | an equality in first place is the one extracted, and a row failing it evaluates to false, never to an error |
| `Planner.EqualityHidesError` | src/core/predicate.rs:382-491 | in second place a row failing it can evaluate to an error |
| `Crc.Crc32Parts` | src/storage/binary.rs:242-259 | the checksum of several ranges is the checksum of their concatenation |
| `Crc.RegisterInjective` | src/storage/binary.rs:242-259 | different registers stay different whatever bytes follow |
| `Crc.OneByteShows` | src/storage/binary.rs:242-259 | payloads differing in exactly one byte have different checksums |
| `Crc.TableDriven` | src/storage/binary.rs:242-259 | the bitwise update is the table-driven update of section 8 of RFC 1952 |
| `Crc.CheckValue` | src/storage/binary.rs:242-259 | the checksum of the digits 1 to 9 is 0xCBF43926 |
| `Framing.EncodeFrame` | src/storage/binary.rs:305-340 | refuses exactly oversized payloads, and otherwise builds the frame |
| `Framing.RoundTrip` | src/storage/binary.rs:356-413 | a frame decodes to its payload, and reads back whatever follows it |
| `Framing.CutIsTorn` | src/storage/binary.rs:420-509 | a frame cut anywhere is torn, never corrupt |
| `Framing.DamageIsReported` | src/storage/binary.rs:420-509 | a fully present frame with one damaged payload byte is corrupt, to both readers |
| `Framing.ReadAll` | src/storage/binary.rs:635-703 | every byte string is frames followed by a rest no frame starts: read clean when the rest is empty, as a torn tail at the rest's offset when that is a short header or a sound header promising more bytes than follow, and refused there otherwise |
| `Framing.FieldOrder` | src/storage/binary.rs:305-340 | every field of a frame, byte by byte, least significant first |
| `Framing.WholeExact` | src/storage/binary.rs:420-509 | the reader finds a whole record if and only if the rest starts with exactly what the writer writes for it |
| `Framing.TornExact` | src/storage/binary.rs:426-490 | and a torn one if and only if the header is cut short or promises, within the limit, more bytes than follow |
| `Framing.BadHeaderRefused` | src/storage/binary.rs:441-481 | a full header with the wrong magic, another version or a length over the limit refuses the file wherever it stands, and is never a torn tail |
| `Framing.TruncationExact` | src/storage/binary.rs:635-703 | for every cut: exactly the payloads whose frames lie wholly before it, clean on a boundary, the torn frame's offset otherwise, never corruption |
| `Framing.DamageStopsReader` | src/storage/binary.rs:635-703 | damage in any frame refuses the file at that frame's offset |
| `Histogram.NeverClamped` | src/metrics.rs:106-117 | no 64-bit sample reaches the clamp |
| `Histogram.IndexMonotone` | src/metrics.rs:106-117 | larger samples never land in lower buckets |
| `Histogram.UpperBound` | src/metrics.rs:124-136 | a bucket's reported bound is at least the sample and at most an eighth above it |
| `Histogram.Percentile` | src/metrics.rs:193-211 | the value reported for any rank bounds the true order statistic from above within an eighth |
| `Histogram.Rank` | src/metrics.rs:194-197 | the least number of samples that makes at least the quantile's share of the count |
| `Histogram.FromDelta` | src/metrics.rs:186-222 | count, median, 99th percentile and maximum of a window, each within that bound; nothing reported for an empty one |
| `Histogram.LatencyWindow.Record` | src/metrics.rs:146-148 | the counters stay the exact tally of every sample |
| `Histogram.LatencyWindow.Close` | src/metrics.rs:982-1022 | the counts reported are the tally of a list of samples none of which another window reports; every sample recorded before the close has been reported after it, whatever arrives during the snapshot |
| `Histogram.LatencyWindow.Report` | src/metrics.rs:982-1022 | the statistics of a window are those of exactly these samples, each within the bound |
| `Cells.KeyBack` | src/metrics.rs:536-550 | a coordinate's key is never the empty mark, and the coordinate can be read back |
| `Cells.StepKeeps` | src/metrics.rs:568-638 | every atomic step of every thread keeps the table's invariant, byte counters and unattributed writes included, and takes no slot back |
| `Cells.OneSlotForEver` | src/metrics.rs:568-602 | in any interleaving a coordinate owns at most one slot, for ever |
| `Cells.AllOrNone` | src/metrics.rs:605-632 | its reads and writes are all counted in that slot or all as overflow |
| `Cells.Conserved` | src/metrics.rs:605-638 | for reads and for writes attributed plus overflow is the operations performed; a slot's bytes fall short only by what threads have counted and not yet added; with the unattributed writes every operation is counted |
| `Limits.FullIsFresh` | src/api/limits.rs:596-600 | a full bucket answers, and becomes, what a fresh one would |
| `Limits.Limiter.TakeOne` | src/api/limits.rs:629-680 | every real answer is the one of an unbounded table fed only the requests that got one, and allows exactly when every window ending at the request has room for one more; no answer only when the table is full of buckets that are not |
| `Limits.Budget` | src/api/limits.rs:574-589 | from any moment, what a key is allowed plus what it could spend stays within burst plus refill |
| `Limits.WindowBound` | src/api/limits.rs:567-601 | one owner and class is allowed at most burst plus refill times length in any window of any run of the table |
| `Limits.AllowedExactly` | src/api/limits.rs:567-601 | in any run a request with a real answer is allowed if and only if no window ending at it has already used up its burst and refill |
| `Limits.LevelExact` | src/api/limits.rs:574-589 | a key can spend its full burst, or the burst and the refill since one of its requests less exactly what it was allowed since |
| `Limits.FirstBurst` | src/api/limits.rs:567-601 | a key first seen at one instant is allowed exactly as many requests there as fit its burst |
| `Limits.RetryIsHonest` | src/api/limits.rs:583-589 | waiting as long as a refusal says is enough exactly when the burst is at least one |
| `Limits.RetryIsLeast` | src/api/limits.rs:583-589 | and no shorter wait is |
| `RecordCacheModel.RecordCache.Get` | src/storage/cache.rs:86-104 | a hit returns the listed node and moves it to the recent end; a miss changes nothing |
| `RecordCacheModel.RecordCache.Put` | src/storage/cache.rs:106-128 | the node becomes the most recent and exactly the oldest leave until the list fits |
| `RecordCacheModel.RecordCache.Invalidate` | src/storage/cache.rs:135-141 | exactly that location leaves the list |
| `RecordCacheModel.HitIsLastPut` | src/storage/cache.rs:86-141 | over any run a hit returns the node last put at its location |
| `RecordCacheModel.PutIsFound` | src/storage/cache.rs:106-128 | a node just put is found |

## Left out

- Slotted.RawPage: edits are stated for pages no two cells of which overlap, as every page these operations build is; the decoder does not check that, so it is not promised of arbitrary bytes.
- The tree operations work on pages as values; PageBytes ties each of them to the bytes it is stored as and to the in-place edit the code makes. A torn page is unreadable there; that damage is noticed is Slotted's subject.
- The authenticated encryption around a page body (src/storage/pager.rs).
- Integer widths of generations, log positions and counters: unbounded, as are page ids outside the byte form, where each field has its width; 64-bit arithmetic is modelled where the histogram depends on it.
- The pager's cache of pages and its eviction order (src/storage/pager.rs): covered by letting any written page reach the disk at any time.
- Pager, log and file I/O errors in the B+tree: an error ends the run.
- `CommitProtocol.Engine`: a mutation writes one key; the secondary entries an operation derives from the record it replaces are not modelled.
- CommitProtocol.Engine.Crash: what was torn inside a record is gone with the record; the byte-level torn tail is Framing's subject.
- CommitProtocol.Engine.Write: keys whose standalone apply failed are exempt from the exactness claim until the next restart, because the code has no fence for them.
- Feed.EventFeed.Subscribe: a live subscriber that lags behind the broadcast ring is told so by a separate frame, which is not modelled.
- Predicate numbers are exact reals, so rounding, infinities and not-a-number are not modelled; the lowering of a character and the text form of a value are parameters.
- The sorted wire view of the cell table.
- Limits.Limiter.TakeOne: parsing of configured rates and the classification of endpoints are not modelled; time and tokens are reals.
- Encryption, hashing, authentication, HTTP routing, the command line, configuration, process statistics, the record heap, compaction and the catalog.
