# shrimpd, verified

shrimpd is a small replicated log store. A node takes log entries into a memtable and a
segmented write-ahead log, flushes them into immutable part files, merges parts level by
level, publishes every part in a shared log that the other nodes follow, keeps a token
index beside the parts, and answers queries from parts and memtable. This project models
that logic in Dafny and proves what it promises, for every input and every run.

Run `dafny verify dfyconfig.toml` in this directory.

## Layout

| modules | what they model |
|---|---|
| Prelude, StringOrder | shared types; strings in byte order |
| SegmentLog, SegmentOrder | the segmented log with group commit, as steps between lock regions |
| LineScan, LineCaps, SegmentBytes, RecoveryBytes | the bytes recovery reads and the lines it cannot, and how they agree with the steps |
| Durability, CrashRecovery, FlushAccounting, WritePath | the write path over all runs with failures and crashes; the objects that refine it |
| PartLog, Registry, RegistryClient, RegistryRuns | the shared part log under any interleaving of requests; AppendLog as a client runs it; runs that break its provisos |
| Replica, ReplicaRuns, ReplicaStale, ReplicaNode, SharedLog | one replica following the log, with and without failing fetches; its lists and loops; that its log is the registry's |
| HeapMerge, MergeRows | the heap merge of part files |
| BinBlock, BlockCodec, PartFile | the block codec and the part file, bytes and loops |
| LiteralScan | the whole-blob literal scan against the row-by-row filter |
| IndexKeys, IndexParts, IndexEngines, IndexCoverage | the token index: keys, parts, the engine, and which data parts it may speak for |
| Tokens, TokenSets, Bloom | pruning by tokens and by bloom filter |
| Query, LetterCase, PartBags, Compaction | queries, flushes and level compactions of one node |

Protocols are state machines: a state, an action type, `Enabled` and `Step`, and a `Run`
over any list of actions. Objects that the program updates in place are classes whose
methods refine those steps or keep a stated invariant.

## What holds only under a condition

For each of these the exact condition is proved, and for most of them a run or an input that shows the failure.

- An acknowledged write is durable as long as no batch is synced behind a torn line; a torn tail is not repaired when the highest segment is reopened.
- A line of 4 MiB or more, which may also be a torn line with another glued to it, makes opening the log fail, and acknowledged records that are in no part yet cannot be read back.
- The memtable holds what the undiscarded segments hold until a write leaves a line out, a rotation leaves the log closed, or a discard leaves a segment with records behind.
- A merge of more than 64 parts leaves part keys that differ from the fold of the log until they are deleted.
- Log cleanup spares the unread entries of a node unless its bound passes the next entry the node needs, which happens when a pointer is moved back after the cleanup read it.
- An error from AppendLog means that others won every round there was and that the entry is not in the log, unless the reply to a transaction that took effect was lost.
- A bootstrap keeps own parts, and brings no superseded one back, as long as every own entry published after its snapshot was read is dead and superseded nothing in the snapshot.
- A deferred merge leaves superseded parts listed until a retry fetches it, and for good if the deferral is dropped before; a retry lists a part twice if it is listed already, and a superseded one if the check for it failed.
- A block of 4 GiB or more of line bytes does not decode to what was encoded.
- An empty block ends the merge of its part early.
- The literal scan misses a row whose only occurrence stands at its start behind an empty row; with an empty literal it never ends on a block in which an empty row has bytes behind it.
- After an index compaction, lookups skip the new part for its least token, because the range of the part is named by whole keys.
- A token that contains NUL is never found in an index part.
- Marking a part covered after data compaction is justified only for parts without labels; an index compaction that uses an older list of parts between write and mark breaks the mark, and so does an index write synced behind a torn line.
- Text pruning is by whole tokens while matching is by substring: a term inside a longer word is pruned.
- A block is kept for a label under every hash function only if the key the reader asks for is one of its keys: label keys over 256 bytes and empty values of missing labels are pruned although rows match.

The comment on `compactLevel` says that it merges all parts of a level; it merges at most
four, and the model follows the code. The comment on `MaxTokenSetSize` says that larger
parts fall back to the bloom filter; the term query only skips the token test for them,
and the model follows the code.

## Model

| member | source | states |
|---|---|---|
| `SegmentLog.TakePendingKeepsShape` | internal/shrimpwal/segment.go:174-202 | with ioMu free every unresolved commit is the open batch, so a waiter that becomes leader takes exactly its own batch |
| `SegmentLog.FinishFlushKeepsShape` | internal/shrimpwal/segment.go:191-213 | a flush ending with any mix of written, torn and unsynced lines keeps the shape, so that afterwards only the open batch is unresolved |
| `SegmentLog.SealKeepsShape` | internal/shrimpwal/segment.go:227-273 | sealing, failing at the flush, the close or the open, keeps the shape |
| `SegmentLog.ReopenKeepsShape` | internal/shrimpwal/segment.go:76-124 | after a crash that cut any unsynced tail, opening makes the highest segment active and keeps the shape |
| `SegmentLog.SyncedWriteIsDurableIffAligned` | internal/shrimpwal/segment.go:191-213 | a batch whose write and fsync succeed is on stable storage, except its first line, which is if and only if the file did not end in a torn line |
| `SegmentLog.RecoveredMember` | internal/shrimpwal/segment.go:309-347 | when recovery can read all segments, it yields a record exactly when some segment holds it as a whole line |
| `SegmentLog.LandRecs` | internal/shrimpwal/segment.go:204-213 | a write that is whole, partial or torn adds exactly the lines that are records of their own: those that were completed, without the first one behind a torn line |
| `SegmentLog.RecoveredAfterIo` | internal/shrimpwal/segment.go:191-213 | and extends what recovery reads by exactly those, for every outcome of the write and the fsync |
| `SegmentLog.RecoveredAfterWrite` | internal/shrimpwal/segment.go:191-213 | a clean write appends its lines at the end of what recovery reads |
| `SegmentLog.ReplaySplit` | internal/shrimpwal/segment.go:278-304 | segments at or below a number replay first and the rest after them, so a discard removes a prefix |
| `SegmentOrder.ApplyInOrder` | internal/shrimpwal/segment.go:160-304 | every step of the log keeps the lines in enqueue order across discarded, stored, in-flight and pending lines |
| `SegmentOrder.SegmentsHoldBatchesInOrder` | internal/shrimpwal/segment.go:160-273 | in every run without I/O errors the discarded segments followed by those on disk hold every enqueued buffer once, in enqueue order |
| `LineScan.RecordReadBackIffAligned` | internal/shrimpwal/segment.go:309-347 | on the bytes: an appended record is read back as a line of its own if and only if the file did not end in a torn line |
| `LineScan.BatchReadBack` | internal/shrimpwal/segment.go:309-347 | a batch of records behind a newline is read back line by line, in order |
| `LineScan.LongRecordBlocksRecovery` | internal/shrimpwal/segment.go:325-346 | a record of 4 MiB or more makes the scan fail, and recovery with it; a shorter one is added |
| `LineCaps.TruncateFits` | internal/shrimpwal/segment.go:325-346 | a crash makes no line longer |
| `LineCaps.OpensAfterEveryCrash` | internal/shrimpwal/segment.go:325-346 | a log can be opened after every crash if and only if no line in it, torn pieces and what is glued to them counted together, is as long as the 4 MiB buffer |
| `LineCaps.WholeLogOpens` | internal/shrimpwal/segment.go:325-346 | without torn lines: it opens if and only if every record in it is shorter than the buffer |
| `SegmentBytes.LandAppends` | internal/shrimpwal/segment.go:204-213 | a write of the step machine, whole, partial or torn, appends the first bytes of the encoded batch to the bytes of the segment and nothing else |
| `SegmentBytes.EveryShortWrite` | internal/shrimpwal/segment.go:204-213 | and every number of bytes at which a write can stop is one of its outcomes, except right before a newline |
| `SegmentBytes.TruncateCuts` | internal/shrimpwal/segment.go:76-124 | a crash leaves a prefix of the bytes that still has every synced byte |
| `SegmentBytes.ScanFailsIffOverlong` | internal/shrimpwal/segment.go:325-346 | the scanner gives up on the bytes of a segment if and only if its cells add up to a line that does not fit; otherwise it yields exactly the lines the cells form |
| `SegmentBytes.RecoveryReadsCells` | internal/shrimpwal/segment.go:309-347 | what recovery decodes from the lines of a segment are the records of its cells, in order, and the bytes end in a newline if and only if the segment is not ragged |
| `RecoveryBytes.RunIsTidy` | internal/shrimpwal/segment.go:76-304 | in every run a line is glued to what is before it exactly when that is torn |
| `RecoveryBytes.RecoveryReadsBytes` | internal/shrimpwal/segment.go:309-347 | in every state of every run, reading the bytes of all segments in order gives the records the machine recovers, and fails exactly when a line does not fit |
| `Durability.StepKeepsCore` | internal/shrimplication/lsm_write.go:25-151 | every step of Write, group commit, flush, discard, crash and reopen keeps the pairing of memtable, snapshot and log |
| `Durability.StepKeepsNovel` | internal/shrimplication/lsm_write.go:25-151 | every step keeps that a record on its way to disk is nowhere else in the log |
| `Durability.SealKeepsAcked` | internal/shrimplication/lsm_write.go:58-69 | the snapshot-and-seal boundary of a flush, unless it syncs behind a torn line, loses no acknowledged record |
| `Durability.DiscardKeepsAcked` | internal/shrimplication/lsm_write.go:111-115 | discarding any subset of the sealed segments loses no acknowledged record |
| `Durability.CrashKeepsAcked` | internal/shrimpwal/segment.go:76-124 | a crash at any point takes no acknowledged record from the disk |
| `Durability.StepSafeIffAligned` | internal/shrimplication/lsm_write.go:25-151 | one step keeps acknowledged records safe if and only if it does not sync a batch behind a torn line |
| `Durability.DurableThroughoutIffAligned` | internal/shrimplication/lsm_write.go:25-151 | in every run with flushes failing at any stage, discards, crashes and reopens: each acknowledged record is at every moment a fsynced line of a segment or in a committed part, if and only if no batch was synced behind a torn line |
| `CrashRecovery.AcknowledgedSurvivesCrash` | internal/shrimplication/lsm.go:126-135 | after a given crash every acknowledged record is in a part or in what opening the log reads, if and only if no line left by the crash is 4 MiB or longer, or all of them are in parts |
| `CrashRecovery.CrashProofIff` | internal/shrimplication/lsm.go:126-135 | after every possible crash: if and only if they are synced or in parts and, unless all are in parts, no line in the log is too long |
| `CrashRecovery.CrashProofThroughoutIff` | internal/shrimplication/lsm.go:126-135 | over every run: a crash at any moment leaves every acknowledged record readable, if and only if no batch was synced behind a torn line and no segment held a line too long while it was needed |
| `CrashRecovery.ShortRecordsSurvive` | internal/shrimplication/lsm.go:126-135 | in every run in which no write or crash cuts inside a line, records shorter than 4 MiB are readable after a crash at any moment |
| `CrashRecovery.LongLineLosesAcknowledged` | internal/shrimpwal/segment.go:325-346 | a concrete run: a record of 4 MiB is written, synced and acknowledged, and no crash leaves a log that opens |
| `Durability.TornLineLosesAcknowledged` | internal/shrimpwal/segment.go:105-113 | a concrete run: a failed write leaves a torn line, the next write is acknowledged and is neither on disk nor in a part |
| `FlushAccounting.EntriesConserved` | internal/shrimplication/lsm_write.go:25-151 | in every crash-free run the entries written are exactly memtable plus snapshot in flight plus parts, as multisets, whatever fails |
| `FlushAccounting.StepMirrorsIff` | internal/shrimplication/lsm_write.go:25-151 | one step keeps the log usable and the memtable equal to it if and only if all lines of its write land, its rotation leaves the log open, or its discard leaves no record behind |
| `FlushAccounting.MemtableMirrorsSegments` | internal/shrimplication/lsm_write.go:143-151 | over every run, crashes and failed flushes included: the memtable equals the contents of the undiscarded segments and what is on its way to them, as multisets, if and only if every step was such a one |
| `FlushAccounting.DiscardBag` | internal/shrimpwal/segment.go:278-304 | discarding up to a sealed segment takes exactly the lines of those segments away |
| `WritePath.SegLog.constructor` | internal/shrimpwal/segment.go:76-124 | opening makes the highest segment on disk active, or segment 1 of an empty directory |
| `WritePath.ReopenIsOpened` | internal/shrimpwal/segment.go:76-124 | a crash followed by opening is the reopening step of the machine |
| `WritePath.SegLog.Enqueue` | internal/shrimpwal/segment.go:160-169 | refines the enqueue step; returns the commit of the batch the lines joined |
| `WritePath.SegLog.WriteBatch` | internal/shrimpwal/segment.go:204-213 | refines the write of one batch to the active segment, for every I/O outcome |
| `WritePath.SegLog.CommitWait` | internal/shrimpwal/segment.go:174-185 | refines waiting, with others enqueueing while the leader writes: returns the batch result, leading the flush if nobody has |
| `WritePath.SegLog.SealSegment` | internal/shrimpwal/segment.go:227-273 | refines seal with each of its failures; returns the sealed number only when the new segment is open |
| `WritePath.SegLog.ListSegments` | internal/shrimpwal/segment.go:132-156 | the segment numbers on disk in ascending order, each once |
| `WritePath.SegLog.DiscardUpTo` | internal/shrimpwal/segment.go:278-304 | after success exactly the segments above the number and the active one are left; it removes oldest first, stops at the first that cannot be removed, and succeeds if and only if there is none and, where something was removed, the directory could be synced |
| `WritePath.SegLog.Recover` | internal/shrimpwal/segment.go:309-347 | the decodable lines of all segments, oldest segment first; nothing if and only if some segment cannot be opened or has a line of 4 MiB or more |
| `WritePath.WriteStepsKeep` | internal/shrimplication/lsm_write.go:25-42 | a whole Write keeps the core invariant, and the safety of acknowledged records, its own included, if the file is aligned |
| `WritePath.FlushStepsEffect` | internal/shrimplication/lsm_write.go:50-151 | a whole flush moves the memtable into one part or puts it back, for every stage that can fail |
| `WritePath.FlushStepsKeepCore` | internal/shrimplication/lsm_write.go:50-151 | a whole flush keeps the core invariant |
| `WritePath.SealSucceedsIff` | internal/shrimpwal/segment.go:227-273 | a seal yields a sealed number exactly when the log is open, what is pending is synced and the new segment can be opened |
| `WritePath.Lsm.Open` | internal/shrimplication/lsm.go:100-137 | a node starts with what recovery reads in its memtable; there is none if and only if some segment cannot be opened or scanned |
| `WritePath.Lsm.Write` | internal/shrimplication/lsm_write.go:25-42 | refines the steps of Write; true exactly when the log is open and the batch was synced, and then the batch is acknowledged |
| `WritePath.WriteAcks` | internal/shrimplication/lsm_write.go:25-42 | the steps of a Write acknowledge its batch, with what was pending before it, exactly then |
| `WritePath.Lsm.Flush` | internal/shrimplication/lsm_write.go:50-141 | refines the steps of flush; it succeeds exactly when the log is open, what is pending is synced, and rotation, part, metadata and log entry work; then the memtable is one new part, and if the discard works as well, recovery would read nothing; failure leaves parts and memtable as they were |
| `PartLog.FoldLive` | internal/shrimplication/registry.go:150-194 | a part is live after a history exactly when some entry added it and none superseded it |
| `Registry.CommitKeepsInv` | internal/shrimplication/registry.go:106-196 | a committed transaction puts its entry at the next index and makes every other pending attempt stale |
| `Registry.StepKeepsInv` | internal/shrimplication/registry.go:106-377 | every request of every client (tail reads, commits, old-part deletions, snapshots, pointers, cleanups) keeps the store invariant |
| `Registry.DeleteBatchKeepsInv` | internal/shrimplication/registry.go:207-246 | deleting leftover part keys in batches keeps the part keys between the fold and the fold plus leftovers |
| `Registry.CleanDeleteKeepsInv` | internal/shrimplication/registry.go:346-377 | a cleanup truncates the log to a contiguous suffix |
| `Registry.StepAppends` | internal/shrimplication/registry.go:140-193 | a step appends at most one entry, the one its client prepared, under the next index |
| `Registry.HistoryGrows` | internal/shrimplication/registry.go:106-196 | under any interleaving indices are never reused or skipped: longer runs extend the history |
| `Registry.LogIsNumberedHistory` | internal/shrimplication/registry.go:106-196 | in every run the log keys are exactly the indices above the truncation point, each with the entry committed there, and the base key holds the last index |
| `Registry.PartsAreFoldIffNoLeftover` | internal/shrimplication/registry.go:150-246 | the part keys are the fold of the whole history if and only if no leftover of a large merge is alive |
| `Registry.PartsAreFold` | internal/shrimplication/registry.go:150-196 | with at most 64 old parts per merge the part keys are the fold of the whole history in every run |
| `Registry.LargeMergeLeavesLeftovers` | internal/shrimplication/registry.go:150-196 | the commit of a merge with more old parts leaves the keys different from the fold if one of the others is alive |
| `Registry.ReplayTail` | internal/shrimplication/registry.go:308-333 | folding a prefix and replaying the rest is folding everything |
| `Registry.SnapshotIsFoldOfPrefix` | internal/shrimplication/registry.go:308-333 | whatever commits and cleanups run between its two reads, a bootstrap snapshot is the fold of the first LogIndex entries if and only if no leftover key was alive at its revision; then replaying the rest gives the live parts |
| `Registry.ViewsOnlyLag` | internal/shrimplication/registry.go:346-377 | nodes and pointers read by a cleanup are never ahead of the present ones when pointers only grow |
| `Registry.CleanupSparesUnread` | internal/shrimplication/registry.go:346-377 | when pointers only grow, a cleanup on such stale views removes no entry above the present pointer of any node it saw |
| `Registry.CleanupSparesIff` | internal/shrimplication/registry.go:346-377 | in every run, pointers moving either way: a cleanup spares all entries above the pointer of a node if and only if its bound does not pass the next entry the node needs or all below it is gone |
| `RegistryRuns.CleanupAfterPointerMovedBack` | internal/shrimplication/registry.go:346-377 | a run: a pointer is stored, read by a cleanup and moved back, and the cleanup deletes an entry the node has not read |
| `RegistryRuns.LargeMergeRun` | internal/shrimplication/registry.go:166-179 | a run: after a merge of 65 parts the last of them is still a part key and not in the fold |
| `RegistryRuns.AppendedRun` | internal/shrimplication/registry.go:106-196 | an undisturbed AppendLog call, as a run: one more entry, its part key, and the first batch of old keys gone |
| `Registry.ChooseCoordinator` | internal/shrimplication/registry.go:355-366 | the least pointer over the active nodes and the first node in order that has it; none without nodes |
| `RegistryClient.OthersAreUndisturbing` | internal/shrimplication/registry.go:106-196 | every request of any other client satisfies what a client relies on between its own requests |
| `RegistryClient.CurrentUntilAppend` | internal/shrimplication/registry.go:140-193 | a prepared transaction stays good until somebody adds an entry |
| `RegistryClient.Client.ReadTail` | internal/shrimplication/registry.go:108-138 | with other nodes running in between, the client ends with an index to try for its own entry, good unless somebody has added an entry meanwhile |
| `RegistryClient.Client.TryCommit` | internal/shrimplication/registry.go:140-193 | the transaction adds the entry at the index it was built for exactly when nobody was first, and otherwise changes nothing |
| `RegistryClient.Client.OneTry` | internal/shrimplication/registry.go:108-194 | one round of the optimistic loop: success puts the entry last in the history, at the returned index; failure means that others have added an entry, and leaves the attempt to be tried again |
| `RegistryClient.Client.AppendLog` | internal/shrimplication/registry.go:106-196 | whatever others do and whatever request fails: success means the entry is in the history at the returned index, behind all that was there before; an error means its part is not in the history, unless the reply to a transaction that took effect was lost; and it means that others won every round, all 100 of them where no request failed |
| `RegistryClient.TakeUpTo` | internal/shrimplication/registry.go:207-246 | takes as many elements as fit a batch |
| `RegistryClient.DeleteOldParts` | internal/shrimplication/registry.go:207-246 | removes the listed part keys in rounds of 64; succeeds if and only if the rounds suffice, and then all are gone and nothing else |
| `Replica.StepKeepsShape` | internal/shrimplication/lsm_replication.go:129-541 | every step of replication, own commits, bootstrap, retry, restart and garbage collection keeps the shape of a replica |
| `Replica.ApplyRemembers` | internal/shrimplication/lsm_replication.go:294-403 | applying an entry, fetched or deferred, forgets no live part |
| `Replica.RetryRemembers` | internal/shrimplication/lsm_replication.go:445-541 | a retry, its existence check failing or not, lists, keeps or drops its part and forgets no live one |
| `Replica.CollectRemembers` | internal/shrimplication/lsm_gc.go:79-96 | a collection against the live parts forgets no live one |
| `Replica.CollectKeepsExactly` | internal/shrimplication/lsm_gc.go:79-96 | afterwards exactly those listed parts are left that are live or recent, and nothing else has changed |
| `Replica.RestartRemembers` | internal/shrimplication/lsm_replication.go:16-111 | a restart that loads what it can and defers the rest forgets no live part |
| `Replica.InstallRemembersIffCurrent` | internal/shrimplication/lsm_replication.go:215-292 | installing a bootstrap snapshot forgets nothing if and only if no live own part was published after the snapshot was read |
| `ReplicaRuns.NothingForgottenIffCurrent` | internal/shrimplication/lsm_replication.go:129-541 | in every run with failing fetches: each live part the replica has seen is listed or pending at every moment, if and only if no bootstrap overwrote an own part published after its snapshot |
| `ReplicaRuns.CaughtUpForgetsNothing` | internal/shrimplication/lsm_replication.go:139-268 | at the tail of the log every live part is listed or pending |
| `ReplicaRuns.InstallNoStaleIff` | internal/shrimplication/lsm_replication.go:215-292 | installing a snapshot lists nothing stale if and only if no own entry published since it was read supersedes a part it lists |
| `ReplicaRuns.StepExactIff` | internal/shrimplication/lsm_replication.go:129-541 | with working fetches a step keeps the list complete and free of stale parts and duplicates, unless it installs a snapshot: then if and only if every own entry published since the snapshot was read is dead and superseded nothing in it |
| `ReplicaRuns.ExactThroughoutIffSettled` | internal/shrimplication/lsm_replication.go:129-541 | in every run with working fetches the list is exact at every moment, if and only if every snapshot was such a one when it was installed |
| `ReplicaRuns.CaughtUpIsExact` | internal/shrimplication/lsm_replication.go:150-206 | with working fetches and such snapshots a replica at the tail lists exactly the fold of the log, each part once, whatever truncations, bootstraps, own entries, restarts and collections came before |
| `ReplicaRuns.MergedSnapshotLeavesStale` | internal/shrimplication/lsm_replication.go:215-292 | a run with working fetches that forgets nothing: an own merge published during a bootstrap leaves a part that it superseded listed at the tail |
| `ReplicaRuns.DeferredMergeStaleIff` | internal/shrimplication/lsm_replication.go:294-403 | deferring a merge leaves stale parts listed if and only if a superseded part is listed |
| `ReplicaRuns.RetryDuplicatesIff` | internal/shrimplication/lsm_replication.go:514-531 | a successful retry lists its part twice if and only if the part is listed already and is not among those it supersedes |
| `ReplicaRuns.RetryDuplicatesRun` | internal/shrimplication/lsm_replication.go:514-531 | a run: a part that could not be fetched is loaded by a bootstrap and listed again by the retry |
| `ReplicaRuns.UncheckedRetryStaleIff` | internal/shrimplication/lsm_replication.go:475-531 | a retry whose existence check failed lists something stale if and only if a visible entry has superseded its part, or the replica has not come to the part |
| `ReplicaRuns.UncheckedRetryLeavesStale` | internal/shrimplication/lsm_replication.go:475-531 | a run: such a retry leaves a superseded part listed at the tail |
| `ReplicaRuns.PublishDuringBootstrap` | internal/shrimplication/lsm_replication.go:215-292 | a run in which an own part is published while a bootstrap with an older snapshot is under way |
| `ReplicaRuns.BootstrapForgetsOwnPart` | internal/shrimplication/lsm_replication.go:215-292 | and in which the part is afterwards neither listed nor pending though live |
| `ReplicaRuns.SupersededDeferralLeavesStale` | internal/shrimplication/lsm_replication.go:445-541 | a run: a deferred merge that is itself merged away is dropped, and at the tail its old part is still listed |
| `ReplicaStale.DeferThenRetry` | internal/shrimplication/lsm_replication.go:294-541 | an entry deferred when it was processed and fetched by a retry leaves the same parts listed as if it had been fetched at once: without those it supersedes, with its own, and no longer pending |
| `ReplicaStale.RetryDueIff` | internal/shrimplication/lsm_replication.go:514-531 | a retry that fetches its part leaves no superseded part listed but those other deferred merges will replace, if and only if its own part is not superseded or is itself to be replaced |
| `ReplicaStale.StepDueIff` | internal/shrimplication/lsm_replication.go:129-541 | one step keeps that every superseded part still listed will be replaced by a deferred merge, if and only if it drops no deferral a listed part needs and lists no superseded part |
| `ReplicaStale.StaleOnlyWhileDueIff` | internal/shrimplication/lsm_replication.go:129-541 | over every run, whatever fetches and checks fail: that holds at every moment if and only if every step was such a one |
| `ReplicaStale.RetriedIsExact` | internal/shrimplication/lsm_replication.go:129-541 | after such a run that forgot nothing, a replica at the tail with nothing in flight or pending lists exactly the live parts |
| `ReplicaNode.Filter` | internal/shrimplication/lsm_replication.go:372-386 | the list without the superseded parts, in order |
| `ReplicaNode.LoadParts` | internal/shrimplication/lsm_replication.go:215-268 | splits a snapshot into parts loaded and parts deferred, each once |
| `ReplicaNode.Node.SwapIn` | internal/shrimplication/lsm_replication.go:324-393 | replaces the superseded parts by the new one, once |
| `ReplicaNode.Node.ApplyLogEntry` | internal/shrimplication/lsm_replication.go:294-403 | refines the apply step on the node lists |
| `ReplicaNode.Node.RetryPendingPart` | internal/shrimplication/lsm_replication.go:445-541 | refines the retry step on the node lists: a fetched part is listed, what it supersedes is not, and it is no longer pending |
| `ReplicaNode.Node.RunGC` | internal/shrimplication/lsm_gc.go:79-96 | refines the collection step: exactly the listed parts that are live or young are left |
| `ReplicaNode.Node.BootstrapFromParts` | internal/shrimplication/lsm_replication.go:215-292 | refines the installation of a snapshot |
| `SharedLog.RegistryRunIsFollowed` | internal/shrimplication/lsm_replication.go:129-206 | whatever any number of clients do to the registry, every node has a replica run that meets exactly the history committed and finds exactly as much of it truncated |
| `SharedLog.LogEffect` | internal/shrimplication/registry.go:106-377 | a request appends one new entry, truncates the log, or leaves it alone |
| `SharedLog.SnapshotKeysIff` | internal/shrimplication/registry.go:308-333 | the keys a bootstrap reads from the registry always have every live part, and are exactly those its replica expects if and only if no leftover key was alive |
| `SharedLog.InstalledStaleIffLeftover` | internal/shrimplication/lsm_replication.go:215-292 | a replica that has just installed what the registry returned, with no own entry behind it, lists something stale if and only if a leftover key was alive |
| `HeapMerge.RootIsLeast` | internal/shrimpblock/merge_iter.go:24-37 | the root of a heap precedes every node |
| `HeapMerge.Down` | internal/shrimpblock/merge_iter.go:92-108 | sifting down restores the heap and permutes the cursors |
| `HeapMerge.Init` | internal/shrimpblock/merge_iter.go:92 | heapifies any list of cursors, a permutation |
| `HeapMerge.FixRoot` | internal/shrimpblock/merge_iter.go:104-106 | replacing the root and sifting keeps the heap and changes one cursor |
| `HeapMerge.PopRoot` | internal/shrimpblock/merge_iter.go:108 | removes exactly the root and keeps the heap |
| `HeapMerge.FirstCursors` | internal/shrimpblock/merge_iter.go:78-91 | one cursor per part with a non-empty first block |
| `HeapMerge.MergeParts` | internal/shrimpblock/merge_iter.go:76-111 | ends, and yields every reachable row of every part exactly once; if each part is in time order the rows come in the order (timestamp, part, block, row) |
| `HeapMerge.AllReachableIffNoEmptyBlockBefore` | internal/shrimpblock/merge_iter.go:51-73 | every row is reached if and only if no empty block precedes a non-empty one in its part |
| `MergeRows.MergeEntries` | internal/shrimpblock/merge_iter.go:76-111 | the merged entries are a permutation of all rows, in time order if the parts are |
| `BinBlock.FromLEofLE` | internal/shrimpblock/binblock_purego.go:11-26 | reading n little-endian bytes gives the number back modulo 256^n |
| `BinBlock.LEDigit` | internal/shrimpblock/binblock_purego.go:11-26 | byte i of an integer is its i-th digit to the base 256 |
| `BinBlock.Layout` | internal/shrimpblock/binblock.go:20-56 | where every byte of a block is: the times, the starts and the end of the rows, and the rows |
| `BinBlock.DecodedBlockTiles` | internal/shrimpblock/binblock.go:59-94 | any buffer is rejected or gives in-bounds slices that tile the blob when there is at least one row |
| `BinBlock.SmallBlockDecodes` | internal/shrimpblock/binblock.go:22-89 | a block under 4 GiB decodes to exactly its rows |
| `BinBlock.RoundTripIffUnder4GiB` | internal/shrimpblock/binblock.go:22-89 | encoding and decoding give the entries back if and only if their lines total less than 2^32 bytes |
| `BlockCodec.PutLE` | internal/shrimpblock/binblock.go:37-46 | stores a little-endian number in place and nothing else |
| `BlockCodec.PutTimestamps` | internal/shrimpblock/binblock.go:36-38 | writes the timestamp column |
| `BlockCodec.PutOffsets` | internal/shrimpblock/binblock.go:40-46 | writes the offset column, running totals modulo 2^32, keeping what is in front |
| `BlockCodec.PutBlob` | internal/shrimpblock/binblock.go:48-53 | writes the lines end to end, keeping what is in front |
| `BlockCodec.EncodeBinBlock` | internal/shrimpblock/binblock.go:22-56 | the buffer filled in place is the encoding of the entries |
| `BlockCodec.DecodeBinBlock` | internal/shrimpblock/binblock.go:59-89 | the loop decoder computes the decoding, errors included |
| `BlockCodec.ReadTimestamps` | internal/shrimpblock/binblock_purego.go:11-17 | the timestamp column of a buffer |
| `BlockCodec.ReadOffsets` | internal/shrimpblock/binblock_purego.go:19-26 | the offset column of a buffer |
| `PartFile.CutIsPartition` | internal/shrimpblock/part_v2.go:131-147 | cutting concatenates back to the rows, every block but the last exactly of the block size, none empty |
| `PartFile.CutStream` | internal/shrimpblock/part_v2.go:131-147 | the buffering loop cuts the stream that way for every block size, the default for sizes not positive |
| `PartFile.OpenReadsHeaders` | internal/shrimpblock/part_v2.go:215-280 | opening a written file gives its headers with file offsets |
| `PartFile.ReadBlockReadsRows` | internal/shrimpblock/part_v2.go:289-319 | reading a block through its header gives its rows |
| `PartFile.BlocksTileFile` | internal/shrimpblock/part_v2.go:164-192 | the byte ranges of the blocks tile the file behind the directory |
| `PartFile.HeaderTimesBound` | internal/shrimpblock/part_v2.go:119-126 | with sorted rows the times of a header are exactly the first and last of its block and bound its rows |
| `PartFile.PartRoundTrip` | internal/shrimpblock/part_v2.go:61-319 | writing any rows with any block size and reading the file back gives the same rows |
| `PartFile.WritePart` | internal/shrimpblock/part_v2.go:61-211 | the writer produces that file and those headers |
| `PartFile.FlushBlocks` | internal/shrimpblock/part_v2.go:82-128 | the payload and the headers with payload offsets |
| `PartFile.WriteDirectory` | internal/shrimpblock/part_v2.go:180-195 | the directory bytes with offsets moved behind it |
| `PartFile.OpenPart` | internal/shrimpblock/part_v2.go:215-280 | the walking reader computes the opening, every rejection included |
| `LiteralScan.BinarySearch` | internal/shrimpblock/binblock.go:108-110 | the first position not below the key, by halving |
| `LiteralScan.RowOf` | internal/shrimpblock/binblock.go:108-121 | the row the search maps a blob position to, empty rows included |
| `LiteralScan.IndexFrom` | internal/shrimpblock/binblock.go:163-168 | the first occurrence of the literal at or after a position |
| `LiteralScan.ScanCandidates` | internal/shrimpblock/binblock.go:162-177 | for every block and literal, watched for any number of rounds: whether the scan has ended, and if so exactly the visible rows, in order |
| `LiteralScan.ScanRound` | internal/shrimpblock/binblock.go:163-177 | one round goes to the next position and keeps exactly the rows seen so far |
| `LiteralScan.RoundsStall` | internal/shrimpblock/binblock.go:163-177 | with an empty literal the scan goes from row to row up to the first empty row that has bytes behind it and stays there |
| `LiteralScan.EndsIffAdvances` | internal/shrimpblock/binblock.go:163-177 | for every block and literal the scan ends if and only if the literal is not empty or no empty row has bytes behind it |
| `LiteralScan.VisibleIff` | internal/shrimpblock/binblock.go:162-177 | which rows the scan can see, for every literal: exactly those with an occurrence inside them that is not at the start of a row behind an empty row, or empty ones with bytes behind them |
| `LiteralScan.IteratePlain` | internal/shrimpblock/binblock.go:201-222 | the plain loop yields the passing rows in order |
| `LiteralScan.PassesIff` | internal/shrimpblock/binblock.go:201-222 | a row passes exactly when it is in the time range, holds every wanted literal and no unwanted one, meets the expressions, and its labels fit |
| `LiteralScan.Longest` | internal/shrimpblock/binblock.go:156-161 | one of the literals, none longer |
| `LiteralScan.IterateMatcher` | internal/shrimpblock/binblock.go:145-223 | for every block and matcher: whether the literal scan has ended, and if so the passing visible rows; without a literal the passing rows |
| `LiteralScan.KeepPassing` | internal/shrimpblock/binblock.go:178-197 | filters the candidates by time and by the whole matcher |
| `LiteralScan.SameRowsIff` | internal/shrimpblock/binblock.go:145-223 | the two outputs are equal if and only if every passing row is the first, or follows a non-empty row, or has the literal further in; with an empty literal, if and only if no passing row is empty |
| `LiteralScan.SameRowsWithoutEmptyRows` | internal/shrimpblock/binblock.go:145-223 | so on blocks without empty rows they agree, for every matcher and range |
| `LiteralScan.EmptyRowHidesMatch` | internal/shrimpblock/binblock.go:108-121 | rows "" and "a": the plain loop reports row 1 for the literal "a" and the scan does not |
| `LiteralScan.EmptyLiteralStalls` | internal/shrimpblock/binblock.go:163-177 | rows "" and "a" with an empty literal: the scan is at position 0 after any number of rounds |
| `IndexKeys.SeparatedOrder` | internal/shrimpblock/index.go:90-96 | behind a NUL separator NUL-free tokens decide the order of keys before anything else |
| `IndexKeys.KeyOrder` | internal/shrimpblock/index.go:90-96 | composite keys compare like (token, ordinal) |
| `IndexKeys.RangeIsToken` | internal/shrimplication/index_engine.go:602-622 | the scan range of a token holds a key if and only if the key has that token |
| `IndexKeys.ParseKeyOfKey` | internal/shrimplication/index_engine.go:635-641 | a stored pair is read back if and only if its token has no NUL |
| `IndexKeys.KeyOfParsed` | internal/shrimplication/index_engine.go:635-641 | a key that parses was put together from what it parses to |
| `IndexKeys.TokenBelowKey` | internal/shrimplication/index_engine.go:611-613 | a bare token is below a whole key exactly when it does not exceed the token of the key |
| `IndexParts.LookupPart` | internal/shrimplication/index_engine.go:602-648 | the scan of one part yields exactly the IDs behind the keys in the range of the string, or none if it is outside the range of the part |
| `IndexParts.ScanIsHolds` | internal/shrimplication/index_engine.go:602-648 | for a NUL-free token the scan yields exactly the pairs the part holds |
| `IndexParts.EntryKeyOrder` | internal/shrimpblock/index.go:101-147 | keys of entries in order are in order, and equal only for equal entries |
| `IndexParts.BuildIndexFST` | internal/shrimpblock/index.go:101-147 | IDs interned ascending, keys strictly increasing and exactly those of the entries; fails on more than 65536 IDs and never on fewer with NUL-free tokens |
| `IndexParts.BuiltHolds` | internal/shrimpblock/index.go:101-147 | a built part holds exactly its entries with NUL-free tokens |
| `IndexParts.FlushedRange` | internal/shrimplication/index_engine.go:293-302 | the token range of a flushed part contains every token of its entries |
| `IndexParts.FlushPart` | internal/shrimplication/index_engine.go:271-302 | so a flushed part answers every lookup with exactly the entries |
| `IndexParts.RemapKeepsOrder` | internal/shrimplication/index_engine.go:340-366 | filtering and renumbering keep the keys of a part strictly in order |
| `IndexParts.RemapPart` | internal/shrimplication/index_engine.go:340-385 | the iterator yields the renumbered keys of active IDs, strictly in order |
| `IndexParts.MergeKeys` | internal/shrimplication/index_engine.go:457-519 | the merged keys are the union of what the iterators yield, strictly in order |
| `IndexParts.CompactedHolds` | internal/shrimplication/index_engine.go:423-519 | the compacted part holds exactly the pairs of active IDs the merged parts held |
| `IndexParts.HeldOutsideIffFirst` | internal/shrimplication/index_engine.go:531-549 | a token of a compacted part falls outside the range of the part if and only if it is its least token |
| `IndexParts.HiddenIffLeast` | internal/shrimplication/index_engine.go:531-564 | seen from the parts before, the hidden token is the least one that has an active ID |
| `IndexParts.Compact` | internal/shrimplication/index_engine.go:423-571 | the compaction of the level-0 parts with both results, refused exactly for more than 65536 active IDs |
| `IndexEngines.SortEntries` | internal/shrimplication/index_engine.go:271-279 | entries in order of token and ID, duplicates dropped, nothing else |
| `IndexEngines.IndexMemTable.Write` | internal/shrimplication/index_mem_table.go:17-30 | appends the entries and keeps the token map in step with the list |
| `IndexEngines.IndexMemTable.Lookup` | internal/shrimplication/index_mem_table.go:33-45 | the IDs of a token are those of the listed entries |
| `IndexEngines.IndexMemTable.SnapshotView` | internal/shrimplication/index_mem_table.go:81-90 | hands out all entries and leaves list and map empty |
| `IndexEngines.IndexEngine.constructor` | internal/shrimplication/index_engine.go:54-105 | opening starts from the replayed entries, the parts on disk and the covered list |
| `IndexEngines.IndexEngine.LookupToken` | internal/shrimplication/index_engine.go:602-648 | memtable and part scans together; for a NUL-free token exactly the IDs in the memtable or in a part whose range admits the token |
| `IndexEngines.IndexEngine.Write` | internal/shrimplication/index_engine.go:226-246 | the entries are found whether or not the log commit succeeds; the result says whether it did |
| `IndexEngines.IndexEngine.MarkCovered` | internal/shrimplication/index_engine.go:216-223 | exactly the given parts are added to the covered ones |
| `IndexEngines.IndexEngine.LookupTokens` | internal/shrimplication/index_engine.go:697-731 | no answer exactly when there is nothing to ask or a candidate is not covered; otherwise the IDs that have every token |
| `IndexEngines.IndexEngine.Flush` | internal/shrimplication/index_engine.go:249-320 | a flush, completed or failed at any stage, changes no lookup of a NUL-free token; it completes whenever its three stages work, the tokens are free of NUL and there are at most 65536 IDs, and never when a stage fails or there are more |
| `IndexEngines.IndexEngine.Compact` | internal/shrimplication/index_engine.go:409-597 | for active IDs a compaction changes no lookup of any token but the least live one of the merged parts; what is found afterwards is stated exactly, covered keeps the active IDs, and a failure changes nothing |
| `IndexEngines.CompactionKeepsLookup` | internal/shrimplication/index_engine.go:409-597 | for an active ID and any other token, what is found after the compaction is what was found before |
| `IndexEngines.OnePairIsOne` | internal/shrimplication/index_engine.go:271-302 | such parts exist for all NUL-free tokens |
| `IndexEngines.LeastTokenIsLost` | internal/shrimplication/index_engine.go:531-549 | two flushed parts with one pair each of one active ID: the smaller token is found before the compaction, and it is the one that is lost |
| `IndexCoverage.CrashKeeps` | internal/shrimplication/index_engine.go:54-105 | a crash at any point, with any leftovers on disk and any torn tail, and reopening keep it |
| `IndexCoverage.SyncOkIff` | internal/shrimplication/index_engine.go:236-246 | a group commit of the index log, behind a torn line or not, keeps it if and only if the line glued to a torn one is not needed: its part is gone, or the pair is durable already, or becomes so with this fsync, or is again in the batch |
| `IndexCoverage.FlushBeginIff` | internal/shrimplication/index_engine.go:250-264 | snapshot and seal, which writes out what is pending: the same condition |
| `IndexCoverage.MarkKeepsIff` | internal/shrimplication/index_engine.go:216-223 | marking a data part covered keeps it if and only if the part is gone or the label tokens this Write left out were durable already |
| `IndexCoverage.CompactKeepsIff` | internal/shrimplication/index_engine.go:491-592 | a compaction keeps it if and only if every existing part outside the active set that is between write and mark, or named by a stale covered file, has its entries elsewhere |
| `IndexCoverage.StepKeepsIff` | internal/shrimplication/index_engine.go:216-597 | every step: kept if and only if no sync loses a needed line and marks and compactions are justified |
| `IndexCoverage.CoveredThroughoutIff` | internal/shrimplication/index_engine.go:216-597 | over every run the invariant holds throughout if and only if no sync lost a needed line and every mark and compaction was justified |
| `IndexCoverage.CarefulRun` | internal/shrimplication/index_engine.go:216-597 | runs without a sync behind a torn line, in which marks follow a write of all label tokens and active sets name every part in between, keep the invariant |
| `IndexCoverage.CoveredIsComplete` | internal/shrimplication/index_engine.go:734-749 | in every such run a covered, existing data part has all its label tokens in the memtable or an index part whenever the lock is free |
| `IndexCoverage.OnlyWritten` | internal/shrimplication/index_engine.go:226-320 | over every run nothing is stored anywhere that was not written |
| `IndexCoverage.MarkNeedsWritten` | internal/shrimplication/index_engine.go:216-246 | in every run a justified mark needs every label token of the part to have been written for it |
| `IndexCoverage.MarkOkIffWritten` | internal/shrimplication/index_engine.go:216-246 | in every run in which nothing else was written for the part, its mark is justified if and only if its Write carried all its label tokens |
| `IndexCoverage.TornLineUnlicensed` | internal/shrimplication/index_engine.go:226-246 | a run: a torn index line, an acknowledged and marked Write behind it, a crash; the part is covered without its token |
| `IndexCoverage.TextOnlyMark` | internal/shrimplication/lsm_compact.go:212-224 | in every run in which a part got text tokens only, as data compaction writes them, its mark is justified if and only if the part has no labels |
| `IndexCoverage.LabelIsNotText` | internal/shrimpblock/index.go:20-22 | a label token is never a text token: its prefix holds a colon |
| `IndexCoverage.TextOnlyUnlicensed` | internal/shrimplication/lsm_compact.go:212-224 | the run of write, sync and mark after data compaction leaves every part with labels covered without them |
| `IndexCoverage.MarkAfterStaleCompaction` | internal/shrimplication/index_engine.go:409-597 | a run in which a compaction with an older list of parts, between write and mark, leaves a covered part without its token |
| `Tokens.FieldsAreRuns` | internal/shrimpblock/token.go:13-28 | the fields of a string are exactly its maximal runs of word characters |
| `Tokens.FieldsSplit` | internal/shrimpblock/token.go:13-28 | a delimiter splits the fields |
| `Tokens.FoldInvisible` | internal/shrimpblock/token.go:13-28 | folding ASCII case first does not change the tokens |
| `Tokens.DelimitedTokens` | internal/shrimptypes/types.go:25-47 | if the folded term stands in a string between delimiters or ends, its tokens are tokens of the string |
| `Tokens.FoldContains` | internal/shrimptypes/types.go:25-47 | true exactly when at some place every byte of the term equals the byte of the string, with A to Z read as a to z |
| `LetterCase.CaseNeverMatters` | internal/shrimptypes/types.go:25-47 | two stores whose rows differ only in the case of ASCII letters give, for every query, answers with equally many rows that read alike but for case |
| `LetterCase.ScannedSame` | internal/shrimplication/lsm_query.go:53-57 | such parts store the same tokens, so a term scans both or neither |
| `LetterCase.MemtableRowFound` | internal/shrimplication/lsm_query.go:24-101 | a memtable row is returned exactly when it is in the time range and the lowercased term occurs in it in some case |
| `TokenSets.AddRow` | internal/shrimpblock/token.go:41-53 | collects the new tokens of a row until one does not fit |
| `TokenSets.AddRows` | internal/shrimpblock/token.go:41-53 | the same over rows, stopping at the first token that does not fit |
| `TokenSets.BuildTokenSet` | internal/shrimpblock/token.go:36-56 | the flush builder: the first 10000 distinct tokens in ascending order, and whether there were more |
| `TokenSets.BuildTokenSetFromPart` | internal/shrimpblock/token.go:59-85 | the part-walk builder: the same set and flag over the blocks that can be read |
| `TokenSets.MergeRow` | internal/shrimplication/lsm_compact.go:134-145 | the compaction callback on one row, which goes on after the cap |
| `TokenSets.CompactionTokens` | internal/shrimplication/lsm_compact.go:134-162 | the compaction builder: the same set and flag |
| `TokenSets.BuildersAgree` | internal/shrimpblock/token.go:36-85 | whatever builder made them, two stored sets of the same rows are equal, flag included |
| `TokenSets.BinarySearch` | internal/shrimpblock/token.go:94 | finds a token in a sorted list exactly when it is there |
| `TokenSets.HasToken` | internal/shrimpblock/token.go:88-99 | keeps a part exactly when there is nothing to prune by or every token of the term is stored |
| `TokenSets.UntruncatedIsAll` | internal/shrimpblock/token.go:36-56 | an untruncated set holds exactly the tokens of the rows |
| `TokenSets.KeptIff` | internal/shrimpblock/token.go:88-99 | a part with tokens and an untruncated set is kept if and only if each token of the term is a token of some row |
| `TokenSets.DelimitedKept` | internal/shrimpblock/token.go:88-99 | a part with a row in which the folded term stands delimited is kept |
| `TokenSets.WordPrefixPruned` | internal/shrimplication/lsm_query.go:53-57 | a word that only starts a longer word of the row matches the row, and the part is pruned |
| `Bloom.SetBit` | internal/shrimpblock/bloom.go:75-82 | sets exactly one bit, at the position with 64-bit wrap-around |
| `Bloom.SetHash` | internal/shrimpblock/bloom.go:9-14 | sets exactly the four positions of the hash |
| `Bloom.ProbesAreSpaced` | internal/shrimpblock/bloom.go:71-73 | the first position is that of the low half of the hash; each probe is the high half further on, modulo 2^64, and a position is its probe modulo the number of bits |
| `Bloom.UnwrappedPosition` | internal/shrimpblock/bloom.go:71-73 | while nothing wraps around, position i is lo + i * hi modulo the bits |
| `Bloom.MightContainHash` | internal/shrimpblock/bloom.go:16-27 | true exactly when the filter is not empty and all four positions are set |
| `Bloom.BuildFilter` | internal/shrimpblock/part_v2.go:113-118 | ten bits a key, at least 1024 bytes; the set bits are exactly the positions of the keys, in whatever order they are added |
| `Bloom.FilterSize` | internal/shrimpblock/part_v2.go:113-118 | the least number of bytes with ten bits a key, and at least 1024 |
| `Bloom.BlockFilter` | internal/shrimpblock/part_v2.go:103-118 | the filter of a block is that of the label keys and tokens of its rows |
| `Bloom.NoFalseNegative` | internal/shrimpblock/bloom.go:9-27 | a key that was added is always reported |
| `Bloom.CopyAt` | internal/shrimpblock/bloom.go:61-68 | copies what fits into the buffer and keeps what is in front |
| `Bloom.LabelKey` | internal/shrimpblock/bloom.go:61-69 | the buffer code puts together the key of the reader, out of range included |
| `Bloom.WriterKeyInjective` | internal/shrimpblock/part_v2.go:105-108 | a label key stands for one name and value as long as names hold no equals sign |
| `Bloom.MightContainLabel` | internal/shrimpblock/bloom.go:61-69 | the label test of a block: out of range exactly from 252 bytes of label name on, otherwise whether the block is kept |
| `Bloom.ReaderAgreesIff` | internal/shrimpblock/bloom.go:61-69 | the reader asks for the key the writer stored if and only if it fits 256 bytes; storing the separator is out of range exactly from 252 bytes of label name on |
| `Bloom.AlwaysKeptIff` | internal/shrimplication/lsm_query.go:307-319 | whatever the rows: a block is kept for k = v under every hash function if and only if the key the reader asks for is among the keys of the block |
| `Bloom.MatchingBlockKept` | internal/shrimplication/lsm_query.go:307-319 | so a block with a row that has label k = v is never pruned when the key takes at most 256 bytes |
| `Bloom.LongLabelKeptIff` | internal/shrimpblock/bloom.go:61-69 | with a longer key and a matching row: never pruned if and only if the key cut at 256 bytes is itself a key of the block |
| `Bloom.LongLabelPruned` | internal/shrimpblock/bloom.go:61-69 | the block of that one row is pruned under some hash function |
| `Bloom.EmptyValueKeptIff` | internal/shrimplication/lsm_query.go:307-319 | a row without the label matches the empty value: never pruned if and only if the bare key is a key of the block |
| `Bloom.EmptyValuePruned` | internal/shrimplication/lsm_query.go:307-319 | the block of one row without labels is pruned under some hash function |
| `Query.PickedCount` | internal/shrimptypes/types.go:12-20 | the plain filter keeps each row as often as it occurs if it matches, else not at all |
| `Query.RowMatches` | internal/shrimptypes/types.go:12-20 | decides time range and term of one row |
| `Query.ScanRows` | internal/shrimpblock/binblock.go:126-141 | appends exactly the matching rows of a block |
| `Query.ScanPart` | internal/shrimplication/lsm_query.go:67-93 | exactly the matching rows of the blocks that can be read; skipping blocks by their times loses none of them |
| `Query.QueryPart` | internal/shrimplication/lsm_query.go:39-94 | skipping a part by its times loses no matching row; by its tokens it is skipped exactly when the token test fails |
| `Query.SortByTime` | internal/shrimplication/lsm_query.go:99 | a permutation in order of time |
| `Query.QueryRows` | internal/shrimplication/lsm_query.go:24-101 | the result is a time-sorted permutation of exactly the matching rows of the scanned parts and the memtable |
| `Query.EmptyTermAnswer` | internal/shrimplication/lsm_query.go:24-101 | without a term: each row in [from, to] as often as parts and memtable hold it, and nothing else |
| `Query.SameRowsSameAnswer` | internal/shrimplication/lsm_query.go:24-101 | two stores with the same rows answer the same, however the rows are spread |
| `Query.HolderScanned` | internal/shrimplication/lsm_query.go:53-57 | a part with a row in which the characters of the term stand delimited is scanned |
| `Query.DelimitedRowsReturned` | internal/shrimplication/lsm_query.go:24-101 | with a term: rows in which it stands delimited are returned as often as they are held if they match byte by byte, which for a plain term in a decoding like UTF-8 they all do, and only matching rows are returned |
| `PartBags.WithoutChosen` | internal/shrimplication/lsm_compact.go:191-209 | removing the chosen parts by ID removes exactly them |
| `PartBags.RowsSplit` | internal/shrimplication/lsm_compact.go:191-209 | splitting the bag of parts splits the bag of rows |
| `PartBags.MergeReady` | internal/shrimplication/lsm_compact.go:94-105 | exact parts are in time order and have no empty block, so the merge reaches every row |
| `Compaction.Summarize` | internal/shrimplication/lsm_compact.go:124-133 | the counters of the block callback are the exact row count, first and last time |
| `Compaction.MergedPart` | internal/shrimplication/lsm_compact.go:120-177 | the merged part holds exactly the merged rows under exact metadata |
| `Compaction.FlushedPart` | internal/shrimplication/lsm_write.go:70-97 | the flushed part holds exactly the snapshot under exact metadata |
| `Compaction.Choose` | internal/shrimplication/lsm_compact.go:62-92 | up to four own parts of the level, none with a later start than one left out |
| `Compaction.MergeChosen` | internal/shrimplication/lsm_compact.go:94-177 | the chosen parts merged into one part of the next level with the same rows |
| `Compaction.ChosenWeigh` | internal/shrimplication/lsm_compact.go:71-92 | four parts of a level, or any of level 0, come from enough flushes for the next level |
| `Compaction.MergeWeighted` | internal/shrimplication/lsm_compact.go:164-209 | a merge keeps every flush in exactly one own part and the weight of every level |
| `Compaction.MergeStep` | internal/shrimplication/lsm_compact.go:61-210 | everything one merge keeps: exact metadata, rows, weights, and the count of own parts |
| `Compaction.MergeMovesUp` | internal/shrimplication/lsm_compact.go:61-210 | a merge takes its parts, four or all there are, from one level, adds one to the next, and changes no other level |
| `Compaction.LevelIsLogarithmic` | internal/shrimplication/lsm_compact.go:164-168 | in every state with the accounts in order a part of level L >= 1 takes at least 4^(L-1) flushes |
| `Compaction.Store.constructor` | internal/shrimplication/lsm.go:100-137 | an empty node |
| `Compaction.Store.Query` | internal/shrimplication/lsm_query.go:24-101 | the query of a node: sorted, exactly the matching rows of the memtable and of the parts whose tokens let them be scanned; exact without a term, complete for delimited terms |
| `Compaction.AddForeign` | internal/shrimplication/lsm_replication.go:324-335 | listing a part of another node leaves the accounts of flushes as they are |
| `Compaction.Store.Write` | internal/shrimplication/lsm_write.go:25-42 | adds the rows to the memtable, each as often as it was given |
| `Compaction.Store.Adopt` | internal/shrimplication/lsm_replication.go:300-335 | lists the part another node put into the log if its ID is not listed yet, and then adds exactly its rows |
| `Compaction.Store.Flush` | internal/shrimplication/lsm_write.go:50-151 | a completed flush adds one own part of level 0 with exactly the rows of the memtable; completed or failed at the seal or later, it keeps the bag of rows, and with it every answer without a term |
| `Compaction.Store.CompactLevel` | internal/shrimplication/lsm_compact.go:61-210 | merges exactly when enough parts are there and I/O works, moving up to four parts of the level into one of the next; keeps the bag of rows; unforced it leaves fewer own parts |
| `Compaction.Store.MaxPartLevel` | internal/shrimplication/lsm_compact.go:48-58 | the highest level among own parts |
| `Compaction.MaxLevelBounds` | internal/shrimplication/lsm_compact.go:48-58 | no own part is above it |
| `Compaction.Store.CompactLevels` | internal/shrimplication/lsm_compact.go:38-45 | the loop that reads the highest level again each round ends, by (own parts, levels to go); afterwards every level has exactly what a carry upwards in fours leaves of it, with fewer own parts in all if some level had four; it fails exactly when a merge that is due cannot be done; it keeps the bag of rows |
| `Compaction.Store.Compact` | internal/shrimplication/lsm_compact.go:17-27 | up to four parts of level 0 become one of level 1 even if there are fewer, then the levels above as in the loop: the exact number of parts of every level, and exactly when it fails |
| `Compaction.Store.Do` | internal/shrimplication/lsm.go:141-208 | one write, replicated part, flush or compaction adds exactly the rows that came in and at most one flush |
| `Compaction.Store.Serve` | internal/shrimplication/lsm.go:141-208 | any sequence of writes, replicated parts, flushes and compactions: the node holds every row that came in, as often as it came in, and after n of them an own part of level L >= 1 means that 4^(L-1) is at most n plus the flushes before |

## Left out

- Compression, hashing, the FST, JSON, regular expressions and Unicode tables are parameters: a lossless pair of functions, any hash function, a sorted key list, a line codec, an oracle, and functions on characters and strings.
- Label extraction from a line is taken as given; BuildIndexEntries is represented by the tokens it yields.
- Clocks, tickers, HTTP transfer, etcd leases and watches appear as steps that happen or fail; retry backoff delays are not modelled.
- WritePath.SegLog.DiscardUpTo: a failed directory sync is an error, but that the removed segments may come back after a crash is not modelled.
- A write or a crash that stops exactly before the newline of a line is not modelled: at the end of a file such a line still decodes.
- A `Crash` step of Durability and IndexCoverage is one after which the log opens; CrashRecovery says when that is for the write-ahead log.
- What flush and compactLevel do to a part whose AppendLog returned an error although the entry was committed (they remove its file) is not modelled; the error itself is.
- RegistryClient.DeleteOldParts: other requests and request errors between its rounds are not modelled.
- PartFile.OpenPart: offsets, sizes and counts are natural numbers; the conversions to signed integers of a corrupt directory are not modelled.
- IndexParts.BuildIndexFST: for tokens with NUL it states only what success means, not exactly when the key order is violated, because that depends on the ordinals of unrelated entries.
- IndexEngines.IndexEngine.Compact: a flush that publishes another part while the compaction reads the old ones without the lock is not modelled; IndexCoverage has it, on pairs.
- IndexCoverage.CoveredThroughoutIff: the condition is exact for the invariant over durable entries; for what a lookup sees at one moment it is sufficient.
- Query.QueryPart: blocks that cannot be read are in Query.ScanPart; from there on every block is readable.
- Registry.CleanupSparesUnread: stated for runs in which pointers only grow; Registry.CleanupSparesIff has the exact condition for all runs.
- Compaction.Store.CompactLevel: force is only stated for level 0, as the program uses it; with force on every level the loop over levels would not end.
- Replica takes the part keys to be the fold of the log. Registry and SharedLog say exactly when they are; compaction merges at most four parts, so the program itself leaves no leftover keys.
- A failed fsync is treated as leaving any part of the unsynced data; later fsyncs of the same file are trusted.
- Carriage returns that the line scanner strips and JSON lines that decode with missing fields are not modelled.
- Read errors inside a merge stream end the compaction with an error; the model has the error as a failed compaction that changes nothing.
- A consumer that stops the merge stream or a block iteration early is not modelled; it would see a prefix.
- Durability and WritePath keep a snapshot as the list of its records in arrival order; the sort by time and the row contents are in Compaction.Store.Flush.
- QueryMatcherWithStats as a whole: its pieces (literal scan, bloom, label index) are proved one by one; its prefilter on label names is not sound for the label `level`, which is read from another key, so completeness of label queries is not claimed.
- QueryStream and StreamTo, which deliver rows unsorted through a callback, and the counters of the query statistics are not modelled.
- Visibility of rows while a flush is between snapshot and publish: query results are stated between operations.
- The `has` test of flush and compactLevel, for a part that replication has already listed, is in ReplicaNode.Node.SwapIn; Compaction.Store gives every part a new ID.
- The branch of compactLevel for a merge without rows: parts are never empty, so it is not reached.
- Index files that could not be removed after an index compaction and come back at the next start only add entries and are not modelled.
- Index parts in the old format without an FST file, legacy JSON blocks, sparse sidecars and migration are not modelled.
