# Verified model of the streams engine

A Dafny model of the hard core of a single-node persistent event engine, and proofs about it.
Everything is stated over every input, every run or every reachable state. `dafny verify
dfyconfig.toml` checks the whole project.

## What is modelled

* **Write path and recovery** (`TopicLog`, `TopicSnapshot`, `WritePath`, `IndexReplay`, `WriteRuns`,
  `CrashRuns`, `Durability`, `SnapshotReplay`, `LoggedSeqs`, `DeleteReplay`, `AckReplay`, `TopicState`).
  Writers stage seqs, enqueue frames and take a ticket under the append lock; the WAL writer commits or fails groups
  in order; tickets publish, roll back or delete in order; snapshots capture the drained topic at a log
  position taken earlier; crashes keep the durable log and any further prefix of what was in flight;
  recovery restores the last snapshot and replays the log behind it with the skip rule and the
  contiguity guard. Steps of writers, the WAL writer, the snapshotter and crashes interleave freely.
* **Disk reservation** (`DiskReserve`): the synced head ceiling of topics whose records are published
  before they are synced, with snapshots and crashes.
* **Shard-count-agnostic replay** (`ShardReplay`, `FragmentReplay`, `ShardRecovery`): frames of many
  topics in many WAL groups, with the reorder pass for split topics.
* **Lease queue** (`QueueModel`, `QueueProjection`, `QueueRuns`, `QueueOutcomes`, `QueueFencing`,
  `ClaimPass`, `QueueEngine`, `DeadLetter`, `LeaseReplay`, `LeaseLogOrder`): the projection with its heaps and
  cursor, cohort claims, ack/nack/extend with fencing tokens, dead-lettering, disconnects, and replay
  of the leases log, in lock order and in whatever order its frames were written.
* **Router forwarding** (`Forward`, `ForwardRuns`, `ExactlyOnce`, `ForwardedContents`, `RouterKey`,
  `Quiesce`, `Reforward`, `RouterGraph`): passes, re-derivation after a crash, exactly-once keys, coming to rest on cyclic
  graphs, and the cycle check.
* **Cursor reads** (`Eviction`, `Reader`, `ReaderRuns`, `SharedFrames`, `BroadcastCache`): the read
  with its loss floors and tombstones, retention, the shared-frame path and its cache.
* **Wake-ups** (`Scheduler`, `Wakeups`): the banded ready set, and the dirty-flag protocol between
  writers and the router worker with every atomic access its own step.

Clocks, WAL outcomes, append and sync results are parameters. A record's payload is opaque. Sequence
numbers and times are unbounded integers, so saturation at 64 bits is not modelled.

## Where the code and its documentation differ

The model follows the code. These promises made in comments or documents do not hold as written; each
has a lemma with a concrete run and a theorem that says exactly when the code does what it says.

* *Acknowledged means recoverable.* After a failed group commit the WAL writer rewinds its tail and
  goes on (`src/storage/wal.rs:1834-1883`), and the failed seqs stay behind as holes. A later record
  is acknowledged with a gap below it, and replay drops it as non-contiguous and hands its seq out
  again (`src/engine/recovery.rs:673-678`; `Durability.FailedCommitLeavesHole`, `NextAckIsLost`).
* *A snapshot restores the topic exactly.* `restore_topic` refills the holes between live records but
  not those behind the last one (`src/engine/snapshot.rs:378-405`), while the head is restored beside
  them. If the last published record had been deleted, the next append is let in by the head, lands at
  the end of the slots and so comes back under an older seq (`SnapshotReplay.DeletedTailShiftsNext`);
  if nothing was appended, the head comes back beyond the slots, the next record gets a used seq, is
  visible before it is committed and moves the head back (`UnlevelRecovery`,
  `UnlevelRecoveryMisleads`). `TopicSnapshot.RestoreIsExactlyWhen` says exactly when a snapshot ends
  where its head says.
  `Durability.AckedComesBackExactlyWhen` settles both promises for every state of every run, whatever
  snapshots, crashes and failed commits it had: an acknowledged undeleted record comes back if and
  only if no delete on its way strikes it and either the last snapshot or recovery holds it, or it
  came later, that snapshot or recovery ended where its head said (`Continues`), and no lower seq was
  rolled back since; or a record of equal content is shifted onto its seq and not struck there.
  `AckedForeverExactlyWhen` follows a record over whole runs, and
  `FailStopKeepsAcked` proves the promise for runs whose snapshots end live and in which a failed
  commit is final until the next crash, or the next snapshot that covers it.
* *A delete matches replay exactly, and a crash never over-deletes* (`src/engine/mod.rs:3255-3257`,
  `3338-3339`). A record that such a snapshot shifts to an older seq can fall below the limit of a
  delete that spared it, and a crash loses it (`DeleteReplay.SparedRecordIsStruck`).
  `DeleteIsPointInTime` settles every slot in every state of every run: on replay the frame removes a
  record if and only if the live delete removes it and the record survives, or it is the one that
  landed on another seq; `DeleteReplaysExactlyWhen` says when the two sets are equal, and
  `FailStopDeletesReplay` proves the promise for fail-stop runs.
* *A crash after the sync of an acked job's delete converges to the job being gone*
  (`src/engine/queue.rs:921-927`). The record is removed only after the sync, and without the publish
  ticket that makes a snapshot wait for a selector delete. A snapshot whose position lies past the
  frame and that captures the record before it is removed brings the job back
  (`AckReplay.AckedJobComesBack`). `BackExactlyWhen` settles every crash of every run: such a job is
  live again if and only if the snapshot holds it and no delete behind its position strikes it, or
  another record landed on its seq; `RacedExactlyWhen` says which snapshots do that, and
  `AckedStaysGone` proves the promise for runs whose snapshots wait.
* *Groups without appends of a split topic are order-insensitive* (`src/engine/recovery.rs:279-284`).
  They are replayed last, so a delete among them that was not pinned at or below the tail strikes
  records appended after it (`ShardRecovery.UntimelyFragmentStrikes`). `ReplayIsShardCountAgnostic`
  proves that the history is recovered if and only if no such delete picks a record the history
  leaves, and that timely histories are.
* *A disk topic never hands out an acknowledged seq again.* The reservation is a frame in the log, and
  a snapshot neither keeps it nor logs it again (`src/engine/snapshot.rs:418-421`; a run in
  `DiskReserve.ForgetfulRun` and `SnapshotHandsOutAgain`, and one with a deleted tail in
  `DeletedTailIsHandedOut`). `NeverFreeExactlyWhen` proves over every run that no crash can free a
  published seq, whatever unsynced tail it loses, if and only if each crash finds every published seq
  covered: by the slots that the snapshot and the synced log behind it replay to, or by a reservation
  above their head. Runs without snapshots are such runs, and so is a publish that a group sync
  follows.
* *A failed dead-letter is dead-lettered again.* The divert has already forgotten the delivery count,
  so a job may be leased more often than the limit (`DeadLetter.LeasedAgainAfterFailedDivert`). It is
  diverted again exactly when it was leased as often as the limit once more without an ack
  (`DivertsExactlyAtLimit`), and in all no more than the limit plus the limit for every delete of it
  that failed (`LeasedWithinLimit`).
* *Replaying the leases log rebuilds the holders.* In lock order it does, if and only if the job was
  not acked under a lease that would still run, with its delete in flight or failed and no claim since
  (`LeaseReplay.ReplayRebuildsLeases`). But frames are logged after the lock is dropped: a `/work`
  claim whose connection closes can be logged after its own release, and the closed connection's
  worker comes back as the holder (`LeaseLogOrder.ReleaseLoggedFirst`). Frames of different jobs
  commute; `ReorderedRebuildsExactlyWhen` says exactly which orders of one job's frames do.
* *A reader never skips silently.* `diff` scans, reads the floors and walks the index under separate
  locks, and `$ts` is not ordered by seq as the scan assumes (`src/engine/topic_state.rs:1359-1360`):
  `write` reads the clock before it takes the append lock. Over every run, whatever its timestamps, a
  passed seq is delivered, reported, deleted or filtered if and only if it neither slipped through
  (present when the floors were read, reclaimed when the walk came by; `ReaderRuns.SplitReadLoses`)
  nor was hidden: expired, above the floors the read took, and behind an unexpired record that was
  present when the read scanned, or appended after that (`PassedIsKnownExactlyWhen`; a run in
  `HiddenBehindYounger`). `NoSilentLoss` is the case of ordered timestamps.
* *Hop counts are re-derived identically on recovery* (`src/engine/topic_state.rs:72-74`). A snapshot
  keeps none and restores zero (`src/engine/snapshot.rs:402`), so a record that had reached the hop
  cap is forwarded after a crash and shifts every later destination seq
  (`ForwardRuns.CappedRecordIsForwarded`). `RederivesExactlyWhen` proves that re-forwarding derives
  the same records at the same seqs if and only if no captured record between the two cursors that
  the router lets through had reached the cap; an exactly-once router still never sends a record
  twice, but sends such a record out of order (`ExactlyOnce.InOrderExactlyWhen`, `RevivedComesLate`).

## Model

| member | source | states |
|---|---|---|
| `Durability.AckedComesBackExactlyWhen` | src/engine/mod.rs:2219-2373 | In every state of every run and for every crash, an acknowledged undeleted record is back with the same seq and payload if and only if no surviving delete in flight strikes it and the last snapshot or recovery holds it, or it came later, that snapshot or recovery ended where its head said and no lower seq was rolled back since; or if a record of equal content that was logged behind the head lands on its seq and no later delete strikes it there; otherwise it is lost |
| `Durability.AckedForeverExactlyWhen` | src/engine/recovery.rs:659-691 | Over every continuation of every run, a record acknowledged at some point and struck by no delete stays acknowledged and readable under its seq at every later point if and only if it comes through every crash in the sense above |
| `Durability.AckedSeqIsTakenExactlyWhen` | src/engine/recovery.rs:659-691 | Behind a snapshot or recovery that ended where its head said, the seq of an acknowledged record, deleted or not, is taken after a crash if and only if no lower seq was rolled back since |
| `Durability.FailStopKeepsAcked` | src/engine/recovery.rs:659-691 | In every run whose snapshots end live and where a failed commit is final until the next crash or covering snapshot, a record acknowledged at any earlier point keeps its seq and payload unless deleted, and later appends get higher seqs |
| `Durability.NewlyDoomedIsDeleted` | src/engine/mod.rs:3318-3344 | A seq counts as deleted only from the turn of a committed delete that picks its live record, or a crash that a delete of it in flight survives |
| `Durability.FailedCommitLeavesHole` | src/storage/wal.rs:1834-1883 | A failed first commit leaves a hole in the index, nothing in the log and nothing acknowledged |
| `Durability.NextAckIsLost` | src/engine/recovery.rs:672-678 | After that hole the next write is acknowledged one seq above, and a crash recovers an empty topic |
| `LoggedSeqs.VisibleIsDurable` | src/engine/mod.rs:2226-2229 | In every run each live record below the outstanding batches is in the durable log under its own seq, or, if a recovery shifted it there, under the higher seq that was behind the head then; runs whose crashes find a topic that continues shift none; and these records are all a reader sees unless the last recovery left the head beyond the slots |
| `Durability.HeadGoesBackExactlyWhen` | src/engine/mod.rs:2302-2363 | Between crashes the tail never moves back, and the head only rises while the last snapshot or recovery left it within the slots; otherwise it goes back when a batch is published that ends below it, and only then |
| `LoggedSeqs.LoggedIsDense` | src/engine/mod.rs:1069-1103 | In every run and over any number of crashes since the last snapshot, every seq behind what the snapshot restores and below the outstanding batches was logged behind its position, except those rolled back since, the one seq a shifted append landed on if the snapshot did not end where its head says, and published seqs recovery did not bring back; if the snapshot did end there, only the rolled-back ones are missing; and of those behind the last snapshot or recovery exactly the rolled-back ones were not logged since |
| `DeleteReplay.DeleteIsPointInTime` | src/engine/mod.rs:3258-3344 | In every state of every run a committed delete removes live what it picks, nothing at or above its logged bound unless the last recovery left the head beyond the slots; and on replay its frame removes a record if and only if the live delete does and the record survives (held by the last snapshot or recovery, or later, behind one that ended where its head said, with no lower seq rolled back), or it picks the one record that landed on another seq |
| `DeleteReplay.DeleteReplaysExactlyWhen` | src/engine/mod.rs:3338-3341 | In every state of every run the live delete and its replay remove the same set of seqs if and only if each record the live one picks survives, or a picked one landed on its seq, and no record landed on another seq where the frame picks it |
| `DeleteReplay.FailStopDeletesReplay` | src/engine/mod.rs:3338-3341 | In every fail-stop run they remove the same set |
| `DeleteReplay.SparedRecordIsStruck` | src/engine/recovery.rs:692-717 | A run whose deleted tail shifts the next record: a delete before seq 3 keeps the record acknowledged as seq 3, and a crash then recovers no record |
| `Durability.StepKeepsTidy` | src/engine/mod.rs:2302-2325 | In fail-stop states nothing below the head was rolled back and every step, crashes and snapshots of a topic that ends live included, keeps all acknowledged records |
| `CrashRuns.CrashOutcome` | src/engine/recovery.rs:633-691 | The same for any state that keeps the invariant: one crash, recovery from the last snapshot and the surviving log |
| `CrashRuns.RunKeepsInv` | src/engine/mod.rs:2219-2373 | Every run, whatever its snapshots, crashes and failed commits, keeps: the durable log is what it was at the last snapshot or recovery, what was applied since and what is committed; published slots show the applied frames and staged batches sit behind them while the head is within the slots; and what the snapshot and the log recovered to then either continues, lets in no further append, or shifts the next one |
| `WritePath.ReplayStopsAtGap` | src/engine/recovery.rs:659-691 | Replay of ascending frames with gaps yields exactly the live slots below the first seq that was not logged |
| `TopicLog.SnapshotOverlap` | src/engine/recovery.rs:659-690 | A snapshot of any prefix of a timely log, replayed from any earlier position, ends where replaying the whole log ends |
| `TopicLog.HistoryIsReflected` | src/engine/recovery.rs:659-759 | After a timely history every Append, Delete and watermark frame of it stays reflected whatever follows |
| `TopicLog.ReflectedReplayIsNoop` | src/engine/recovery.rs:659-675 | Re-applying frames already reflected changes nothing, in any order |
| `TopicLog.UntimelyDeleteStrikesTwice` | src/engine/recovery.rs:692-717 | A delete logged above the tail hits a later append when replayed a second time, so the bound is needed |
| `TopicLog.DeleteLeavesExactly` | src/engine/topic_state.rs:1708-1790 | A selector delete leaves exactly the records at or above its bound or limit, and those whose tag is not the one asked for or does not begin with the prefix asked for |
| `SnapshotReplay.SnapshotThenReplayExactlyWhen` | src/engine/recovery.rs:417-470 | In every run without a failed commit whose earlier crashes found a topic that continues, whatever was captured and whatever log the captures overlap, recovery gives what replay of the whole log gives if and only if the last snapshot continues; otherwise it gives fewer slots |
| `SnapshotReplay.SnapshotKeepsNextAckExactlyWhen` | src/engine/snapshot.rs:367-428 | In every drained state of every run, failed commits included, the record acknowledged right after a snapshot is back with seq and payload after a crash if and only if the topic ended in a live record or its reclaimed front was exactly what is published, with the head within the slots, and no rolled-back seq lay behind the head |
| `SnapshotReplay.DeletedTailShiftsNext` | src/engine/mod.rs:1699-1726 | A run whose last record was deleted before a snapshot: the record acknowledged as seq 3 comes back as seq 2 |
| `SnapshotReplay.UnlevelRecovery` | src/engine/snapshot.rs:378-421 | A run whose last two records were deleted before a snapshot: a crash leaves the head at seq 3 over a single slot |
| `SnapshotReplay.UnlevelRecoveryMisleads` | src/engine/topic_state.rs:907-937 | From there the next record gets seq 2 again, is visible before it is committed, and its publication moves the head back |
| `TopicSnapshot.RestoreIsExactlyWhen` | src/engine/snapshot.rs:367-428 | Restoring a captured topic gives its slots back up to the last live published one, with the next append behind the head, exactly when the head is within the slots and the topic ends in a live record or its reclaimed front is exactly what is published |
| `TopicSnapshot.CaptureAscends` | src/engine/snapshot.rs:193-228 | A captured image lists its records in seq order behind its front and up to its head, as restoring needs |
| `CrashRuns.OverlapIsReflected` | src/engine/snapshot.rs:47-57 | While the head is within the slots, whatever was logged between the recorded position and the capture is already in the captured topic, so replaying it changes nothing |
| `SnapshotReplay.RunIsTimely` | src/engine/mod.rs:3258-3290 | Every run without a failed commit whose crashes found a topic that continues logs appends at the tail and deletes pinned at or below it, and its log replays to what recovery from its snapshots gives |
| `TopicState.TopicIndex.StageAppend` | src/engine/topic_state.rs:907-937 | Records are pushed at consecutive seqs from the tail |
| `TopicState.TopicIndex.RollbackStaged` | src/engine/topic_state.rs:1058-1074 | The tail is truncated to its length before the batch |
| `TopicState.TopicIndex.RollbackStagedBySeqs` | src/engine/topic_state.rs:1146-1155 | Exactly the batch's slots become holes, later batches stay |
| `TopicState.TopicIndex.Turn` | src/engine/mod.rs:2304-2373 | The publish turn of a ticket on the index, publish, roll back in place or delete, computes the turn of the run model |
| `TopicState.TopicIndex.DiskTurn` | src/engine/mod.rs:2326-2365 | The turn of a disk batch computes the reserved publish of the reservation model, with the watermark it logs: the head moves to the last seq, strictly below the ceiling; or, if the batch failed or the reservation cannot be synced, exactly its slots become holes and the head stays |
| `TopicState.TopicIndex.ApplyDelete` | src/engine/topic_state.rs:1708-1790 | Exactly the live records the selector picks below its bound are removed and reported, and the dead front is reclaimed; a delete without a filter raises the cleared prefix to its bound, and no live record lies below that |
| `TopicState.TopicIndex.DeleteSeqs` | src/engine/topic_state.rs:1829-1859 | Exactly the named seqs are removed, and the dead front is reclaimed |
| `TopicState.TopicIndex.ReclaimFront` | src/engine/topic_state.rs:1475-1505 | The run of dead slots at the front is reclaimed, and nothing live |
| `TopicState.TopicIndex.RestoreHeadWatermark` | src/engine/topic_state.rs:704-722 | Reserved but unwritten seqs are padded as holes from wherever the slots end and the head moves to the reservation; neither ever falls |
| `TopicState.TopicIndex.EnsureDiskHeadReserved` | src/engine/mod.rs:980-1012 | Computes the reservation step of the run model and logs its frame: succeeds exactly below the ceiling or with a sync, and then with a ceiling strictly above the head to publish |
| `TopicState.TopicIndex.ReplayFrame` | src/engine/recovery.rs:633-802 | One frame changes the index as the replay function says, which `LevelReplay`, `KeepsUnlessStruck` and `LandedSlot` tie to the topic and to the frames: an append is let in by the head and lands at the end of the slots, a delete honours its bound or its seqs, floors and reservation only rise |
| `TopicState.TopicIndex.CaptureTopic` | src/engine/snapshot.rs:192-228 | Captures exactly the live published records with their seqs, the reclaimed front and the head |
| `TopicState.TopicIndex.RestoreTopic` | src/engine/snapshot.rs:367-428 | Puts every record back at its seq with holes between them, and the head and ceiling beside them |
| `TopicState.TopicIndex.Recover` | src/engine/mod.rs:805-827 | Restoring a snapshot, replaying the log behind it and reconciling the reservation computes the recovery of the run models |
| `TopicSnapshot.LevelReplay` | src/engine/recovery.rs:633-802 | On an index whose slots end where its head says, replay of any frames, explicit-seq deletes and watermarks included, gives the slots that replay of the topic gives |
| `IndexReplay.KeepsUnlessStruck` | src/engine/recovery.rs:692-717 | Whatever frames are replayed on any index, a slot it has stays as it is unless a selector delete picks it or an explicit delete names it, and is a hole then |
| `IndexReplay.DeletedSeqIsHole` | src/engine/recovery.rs:704-707 | Every seq an explicit delete names and finds is a hole after any further replay |
| `IndexReplay.LandedSlot` | src/engine/recovery.rs:659-691 | The slot behind those of an index holds a record after replay if and only if the first append behind its head was of that record and no later delete struck it there |
| `AckReplay.BackExactlyWhen` | src/engine/queue.rs:916-941 | In any state of any run, after a crash a job whose delete is durable is live if and only if the snapshot holds it and no delete behind its position strikes it, or another record landed on its seq |
| `AckReplay.RacedExactlyWhen` | src/engine/snapshot.rs:32-134 | A snapshot makes such a job return if and only if the record was still there and the position lies past every delete that strikes it |
| `AckReplay.AckedStaysGone` | src/engine/queue.rs:916-941 | In every run whose snapshots wait for the deletes their position covers, over any number of crashes, a job whose delete is durable is gone once it is applied or a crash comes, and stays so |
| `AckReplay.AckedJobComesBack` | src/engine/queue.rs:928-941 | A run in which a snapshot between the sync and the removal brings an acked job back |
| `TopicState.FailedEnqueue` | src/engine/mod.rs:2233-2252 | A write whose WAL enqueue fails leaves the index as it was |
| `DiskReserve.NeverHandedOutAgain` | src/engine/mod.rs:2326-2353 | In every run with snapshots, deletes and crashes, whatever unsynced tails they lose, if each crash finds every published seq covered, no batch ever gets a published seq |
| `DiskReserve.NeverFreeExactlyWhen` | src/engine/mod.rs:805-827 | Over every run: each crash finds every published seq covered by the slots its durable frames replay to, or by a reservation above their head, if and only if no crash of the run could free a published seq, whatever tail it loses |
| `DiskReserve.CoveredExactlyWhen` | src/engine/topic_state.rs:704-722 | A seq is taken after every crash of a state, level snapshot or not, if and only if it is covered in that sense |
| `DiskReserve.CoversWhenLevel` | src/engine/recovery.rs:785-802 | Behind a snapshot that ends where its head says, covered means below the replayed slots or at or below a synced watermark |
| `DiskReserve.UncoveredIsHandedOut` | src/engine/topic_state.rs:907-937 | A published seq that is not covered is handed out again after the crash that keeps only what was synced |
| `DiskReserve.NextPublishIsSafeExactlyWhen` | src/engine/snapshot.rs:418-421 | After a snapshot of a topic that ends live the next published seq is covered if and only if it lay beyond the reservation, so that a watermark was synced for it |
| `DiskReserve.SyncedPublishIsGuarded` | src/engine/mod.rs:980-1012 | A group sync after that publish covers it and everything published before, within the reservation or not |
| `DiskReserve.ForgetfulRun` | src/engine/mod.rs:980-1012 | The steps of a run that reserves up to 257, takes a snapshot and publishes seq 2 |
| `DiskReserve.SnapshotHandsOutAgain` | src/engine/snapshot.rs:418-421 | After that run what is durable does not cover seq 2, which was published |
| `DiskReserve.DeletedTailIsHandedOut` | src/engine/snapshot.rs:378-421 | A snapshot of a topic whose last record was deleted does not cover that record's seq either |
| `DiskReserve.RunKeepsReserved` | src/engine/mod.rs:980-1012 | Every run without snapshots keeps the ceiling in the durable log and all published seqs strictly below it, so its crashes find them covered |
| `DiskReserve.ReplayFindsCeiling` | src/engine/recovery.rs:785-802 | Replay recovers the highest watermark in the log |
| `ShardReplay.FindSplitTopics` | src/engine/recovery.rs:214-254 | Finds exactly the topics that appear in more than one group |
| `ShardReplay.FindLowestAppends` | src/engine/recovery.rs:268-278 | Each group with appends gets its lowest append seq |
| `ShardReplay.SortFrames` | src/engine/recovery.rs:279-288 | A permutation of the frames, sorted by group without appends last, lowest append, group, place |
| `ShardReplay.ReorderRebuildsHistory` | src/engine/recovery.rs:256-293 | If each group holds one consecutive chunk of a history, the reorder pass rebuilds the logged order of the groups with appends and puts the frames of the others behind it; it rebuilds the history if all groups have appends |
| `ShardRecovery.Engine.StreamGroups` | src/engine/recovery.rs:431-470 | Frames of split topics are buffered with group and place, all others replayed in stream order |
| `ShardRecovery.Engine.ReplaySplitTopics` | src/engine/recovery.rs:264-293 | Every buffered topic is replayed in reordered order and no other topic changes |
| `ShardRecovery.Engine.ReplayGroups` | src/engine/recovery.rs:417-481 | Every topic replays its own frames, in stream order if one group holds them and reordered otherwise |
| `ShardRecovery.ReplayIsShardCountAgnostic` | src/engine/recovery.rs:394-481 | Whatever groups the consecutive chunks of a topic's history were routed to and however the groups are ordered, it is recovered by replaying that history if and only if no delete in a group without appends of the topic picks a record the history leaves; timely histories always are |
| `ShardRecovery.UntimelyFragmentStrikes` | src/engine/recovery.rs:279-288 | A history whose delete above the tail lies alone in a group: the reorder pass replays it last and strikes the record appended after it |
| `FragmentReplay.ReorderedReplays` | src/engine/recovery.rs:256-293 | The reorder pass recovers what the history replays to with the frames of groups without appends replayed once more |
| `QueueRuns.Conservation` | src/engine/queue.rs:84-130 | Over every run of appends, removals, claims, ack/nack/extend, expiry, disconnects and dead-letter outcomes each live job is in exactly one of fresh, leased, reclaimable, delayed or having its delete in flight |
| `QueueRuns.NextIsMinimum` | src/engine/queue.rs:1268-1298 | Freelist plus cursor return the least of live minus leased minus delayed minus in flight, and None exactly when that set is empty |
| `QueueRuns.ReadyCountIsClaimable` | src/engine/queue.rs:328-360 | Swept, the working-set formula equals the number of claimable jobs, plus those with a delete in flight |
| `QueueRuns.ClaimTakesMinimum` | src/engine/queue.rs:512-540 | A claim takes the least claimable job and nothing else: leased with its delivery counted, or diverted if past the limit |
| `DeadLetter.DeliveredIsLeasesSince` | src/engine/queue.rs:512-540 | Over every run the delivery count kept for a job is the number of its leases since it was last acked or diverted |
| `DeadLetter.DivertsExactlyAtLimit` | src/engine/queue.rs:516-528 | Over every run a claim that takes a job diverts it if and only if the limit is on and that number has reached it |
| `DeadLetter.LeasedWithinLimit` | src/engine/queue.rs:516-540 | Under a limit of m a job is leased at most m times, and m times more for each acked or diverted delete of it that failed |
| `DeadLetter.FailedDivertStartsOver` | src/engine/queue.rs:957-1108 | In every run a job whose divert or acked delete fails is on the freelist with its count at zero |
| `DeadLetter.LeasedAgainAfterFailedDivert` | src/engine/queue.rs:957-1108 | A run from an empty queue that leases a job twice under a limit of one |
| `QueueFencing.LeaseIdsAreUnique` | src/engine/queue.rs:77-81 | Over every run lease ids strictly increase |
| `QueueFencing.ClaimNeverReplacesALease` | src/engine/queue.rs:529-540 | A claim leases a job nobody holds, under an id never issued before |
| `QueueFencing.TokenFences` | src/engine/queue.rs:666-682 | A request carrying a token acts on a job only if the token was issued for that job to that node, is the job's latest claim and has not expired |
| `QueueProjection.Projection.AllocLeaseId` | src/engine/queue.rs:77-81 | Hands out the next id and advances the allocator |
| `QueueProjection.Projection.PushReclaim` | src/engine/queue.rs:84-88 | Adds to the freelist at most once |
| `QueueProjection.Projection.PopReclaim` | src/engine/queue.rs:91-95 | Pops the least freelist entry |
| `QueueProjection.Projection.PushDelayed` | src/engine/queue.rs:98-100 | Records when a delayed job is ready |
| `QueueProjection.Projection.SweepExpired` | src/engine/queue.rs:105-130 | Exactly the due delayed jobs and expired leases move to the freelist |
| `QueueProjection.Projection.NextClaimable` | src/engine/queue.rs:1268-1298 | Heap and cursor loops compute the next claimable job of the set model |
| `QueueProjection.Projection.ActOne` | src/engine/queue.rs:671-682 | Acts on a job exactly when the node holds it under the token, with the effect of the act |
| `QueueProjection.Projection.Lease` | src/engine/queue.rs:529-540 | Leases a job under a fresh id and counts the delivery |
| `QueueProjection.Projection.ReleaseConn` | src/engine/queue.rs:1150-1165 | Exactly the leases of the closed connection are dropped and reclaimable |
| `QueueEngine.QueueTopic.AckFenced` | src/engine/queue.rs:645-736 | Refuses malformed requests unchanged; otherwise acts on exactly the named jobs its node holds under the given tokens, in one critical section; of these the first `ok` leave the jobs log and the others are on the freelist and as live as before, and no other job comes or goes |
| `QueueEngine.QueueTopic.NackFenced` | src/engine/queue.rs:753-821 | Releases exactly the jobs held that way; each can be claimed at once, or from the end of the asked delay on and not before, a delay over the limit ending there |
| `QueueEngine.QueueTopic.ExtendFenced` | src/engine/queue.rs:838-905 | Extends exactly the leases held that way, holder and id kept, to the asked time from now or the limit it exceeds |
| `QueueEngine.QueueTopic.ReleaseWorkConn` | src/engine/queue.rs:1136-1179 | A disconnect is the disconnect step of the run model |
| `QueueEngine.QueueTopic.DeadLetterJobs` | src/engine/queue.rs:957-1108 | Without a dead-letter append the jobs log is unchanged and every diverted job is re-queued and un-counted; with it exactly the jobs whose delete landed leave the log and the others are re-queued |
| `QueueEngine.QueueTopic.SettleDelete` | src/engine/queue.rs:698-720 | One in-flight delete ends with the job gone or re-queued |
| `QueueEngine.QueueTopic.ClaimStep` | src/engine/queue.rs:512-566 | One turn of the claim loop computes a claim step of the run model |
| `QueueEngine.QueueTopic.HandOut` | src/engine/queue.rs:478-577 | The claim loop gives every claimer as many jobs as it asked for, at least one and at most the cap, or as many as there are, max-min fair, each list ascending and truly leased, taking exactly the lowest claimable jobs, poison jobs diverted |
| `QueueEngine.QueueTopic.RunClaimCohort` | src/engine/queue.rs:438-622 | The same for a whole cohort claim with its sweep and dead-lettering: every job runs for the asked or the topic's lease time, or the limit that exceeds; the dead-letter count grows by the jobs moved; the lease events it logs are those of the claims it made, in order, and the ready count it returns is the number of claimable jobs plus those with a delete in flight |
| `QueueEngine.RequestIsAnswered` | src/engine/queue.rs:772-797 | A request acts on exactly the named jobs its node holds, under the token given for each or under any lease if none is given, and skips the others |
| `QueueOutcomes.EachFate` | src/engine/queue.rs:772-797 | Whatever a request names, each job it acted on is released, delayed, freed or extended as asked, and nothing happens to any other |
| `QueueOutcomes.ClaimableFrom` | src/engine/queue.rs:105-130 | A delayed job can be claimed from its time on and not before |
| `QueueOutcomes.ReclaimableAfter` | src/engine/queue.rs:105-130 | A leased job can be claimed once its deadline is past and not before |
| `QueueOutcomes.DisconnectFreesExactly` | src/engine/queue.rs:1136-1179 | A disconnect makes the live jobs of its connection claimable and leaves every other lease as it is |
| `QueueOutcomes.SettlesExactly` | src/engine/queue.rs:699-711 | Landed deletes take exactly their jobs out of the log, failed ones put theirs on the freelist, and nothing else changes |
| `ClaimPass.NextClaimer` | src/engine/queue.rs:502-510 | The round-robin search finds a claimer with demand left unless all demand is met |
| `ClaimPass.RotaIsFair` | src/engine/queue.rs:462-574 | Nobody gets more than its demand or more than one job above an unsatisfied claimer |
| `ClaimPass.HandedOutOnce` | src/engine/queue.rs:529-566 | No job goes to two claimers or twice to one |
| `LeaseReplay.ReplayRebuildsLeases` | src/engine/queue.rs:145-213 | Replaying the log and sweeping at any later time gives a job the live holder, id and deadline if and only if it was not acked under a lease still running then, with its delete in flight or failed and no claim since; no live job below the cursor is lost, and the allocator is above every logged id; every delivery count the live queue keeps is recovered |
| `LeaseReplay.CursorIsPastClaims` | src/engine/queue.rs:145-213 | The recovered claim cursor is one past the highest job ever claimed |
| `LeaseReplay.RecoveredIsTracked` | src/engine/queue.rs:145-213 | Recovered leases and freelist lie below that cursor, and counts are kept of jobs on either only |
| `LeaseLogOrder.ReorderedRebuildsExactlyWhen` | src/engine/queue.rs:609-622 | In every run whose frames reach the log in any order, a job all of whose frames are logged recovers the live holder if and only if its own frames leave the same running lease in log order as in emission order: same last claim, not closed behind it, same last extension |
| `LeaseLogOrder.OnlyTheseInversionsMatter` | src/engine/queue.rs:145-213 | Only three inversions of a job's frames can matter: an older claim logged behind the newest, a close or extension of the newest logged before it, and two of its extensions swapped; without them the log leaves the same lease |
| `LeaseLogOrder.OlderClaimLoggedLast` | src/engine/queue.rs:145-213 | While the newest lease runs, an older claim logged last does matter |
| `LeaseLogOrder.OwnOrderIsEnough` | src/engine/queue.rs:1186-1211 | If only the job's own frames are in emission order, the exception of the ordered log is the only one |
| `LeaseLogOrder.OwnFramesDecide` | src/engine/queue.rs:145-213 | The recovered lease of a job is a function of its own frames |
| `LeaseLogOrder.LastClaimDecides` | src/engine/queue.rs:145-213 | That function: the last claim logged, unless its close is logged behind it, with the last extension behind it |
| `LeaseLogOrder.AllocatorIgnoresOrder` | src/engine/queue.rs:148-153 | The recovered id allocator does not depend on the order |
| `LeaseLogOrder.ReleaseLoggedFirst` | src/engine/queue.rs:1136-1179 | A run in which a claim and the release of its closed connection are logged the other way round, and the lease comes back |
| `LeaseReplay.RunAgrees` | src/engine/queue.rs:145-213 | Along every run the log rebuilds every live lease, every frame lands on the lease it names, no live job below the cursor is outside leases and freelist, and the allocator keeps in step |
| `Forward.Walk` | src/engine/mod.rs:2552-2687 | One pass consumes at most a batch, appends exactly the image records the destination lacks, each of which fitted behind those before it, counts the whole image, and stops early only at a copy that is not there yet and is too large or does not fit |
| `Forward.PassAppendsExactly` | src/engine/mod.rs:2599-2660 | What a pass appends is one record for each cell it passes that is alive, below the hop cap, let through by the filter and not there yet, in cell order, with the cell's data, its node and tag or none as the router preserves them, its metadata, for an exactly-once router the key and provenance of its origin, and one more hop |
| `Forward.StaysWithinCaps` | src/engine/mod.rs:2662-2683 | A pass keeps a rejecting destination within the record and byte caps it was within |
| `Forward.HeldBackOnlyWhenFull` | src/engine/mod.rs:2631-2683 | A copy is held back only if it is too large for an exactly-once router, or the destination rejects and it would exceed a cap |
| `ForwardRuns.Forwarder.Advance` | src/engine/mod.rs:2689-2747 | Cursor, total and destination move together or, on a failed append, not at all; a router left behind is re-marked |
| `ForwardRuns.PassCounts` | src/engine/mod.rs:2689-2747 | A pass counts the eligible cells it moves over, appended or there already |
| `ForwardRuns.StaysOnlyWhenFailed` | src/engine/mod.rs:2691-2715 | A pass that should move and does not had a record due, and its append failed |
| `ForwardRuns.DestinationIsImage` | src/engine/mod.rs:2474-2747 | Over every run of short, blocked or failed passes and restored snapshots the destination is the image of the source behind the cursor as it was passed, hops aside, its head the base plus the forwarded total; it is the image of the source as it is if and only if no record passed at the hop cap has come back below it |
| `ForwardRuns.ShallowSourceIsImage` | src/engine/mod.rs:2474-2747 | If no source record ever reaches the cap, as with direct writes, the destination is the image of the source over every run |
| `ForwardedContents.DestinationCarries` | src/engine/mod.rs:2599-2660 | Over every run the destination of an at-least-once router holds, behind what was there, one record for each cell that was eligible when passed, in order, with the content above |
| `ForwardedContents.WrittenIsDelivered` | src/engine/mod.rs:2474-2747 | A record written behind a cursor that has caught up is delivered by the next pass, with that content |
| `ForwardRuns.RederivesExactlyWhen` | src/engine/snapshot.rs:393-403 | Re-forwarding after a crash derives the same records at the same destination seqs, hops aside, if and only if no captured record the router lets through between the restored and the later cursor had reached the hop cap |
| `ForwardRuns.CappedRecordIsForwarded` | src/engine/mod.rs:2599-2606 | A run in which a record at the cap is passed over, and after a crash is forwarded to the seq its successor had |
| `ExactlyOnce.EachRecordOnce` | src/engine/mod.rs:2575-2644 | However often the cursor is rolled back or a snapshot restored, and whatever other writers append, this router's keys included, it never sends a cell twice into a destination that has it, every record wanted when last passed is there, and its copies are in source order exactly when none was late |
| `ExactlyOnce.OwnRecordsAreSent` | src/engine/mod.rs:2575-2644 | If no other writer uses the router's keys, its records in the destination are the copies of exactly the records it wanted when it last passed them, each once, none missing |
| `ForwardedContents.OwnRecordsCarry` | src/engine/mod.rs:2599-2660 | Over every such run those records are one for each cell that was eligible when last passed, each with the cell's content and the key and provenance of its origin |
| `ExactlyOnce.InOrderExactlyWhen` | src/engine/mod.rs:2575-2644 | They are the image of the source up to the furthest cursor, in order, if and only if none was sent behind a later one and none has come back below the hop cap unsent |
| `ExactlyOnce.ShallowSourceInOrder` | src/engine/mod.rs:2575-2644 | If no source record reaches the cap and no other writer uses the router's keys, that is so over every run |
| `ExactlyOnce.RevivedComesLate` | src/engine/snapshot.rs:393-403 | A run in which a record comes back below the cap and is sent behind its successor |
| `ExactlyOnce.OwnKeysDiffer` | src/engine/mod.rs:2631-2645 | No two of those records carry the same key |
| `ExactlyOnce.PassSendsExactly` | src/engine/mod.rs:1306-1324 | A pass sends exactly the wanted records that lie beyond the furthest cursor or have come back below the hop cap since they were passed |
| `RouterKey.KeyIsInjective` | src/engine/mod.rs:4010-4018 | Equal keys mean equal router, topic id, epoch and seq, although names may contain colons |
| `RouterKey.DecimalRoundTrip` | src/engine/mod.rs:4010-4018 | A decimal decodes to its number and contains no colon |
| `RouterKey.MetaKeyRoundTrip` | src/engine/mod.rs:4020-4072 | The key written into any metadata is read back, and the earlier metadata is kept |
| `Quiesce.PassLowersPotential` | src/engine/mod.rs:2599-2660 | On any router graph a pass lowers the weighted pending work by at least what it consumes |
| `Reforward.HopsNeverExceedCap` | src/engine/mod.rs:2599-2606 | Over every run of passes, with any keys held, hops that start within the cap stay within it |
| `Reforward.ProgressIsBounded` | src/engine/mod.rs:2782-2810 | However passes are scheduled, their number is bounded by the potential, so forwarding comes to rest |
| `Reforward.PassKeepsLevel` | src/engine/mod.rs:2599-2606 | During a recovery pass every pending copy of a router that is not stuck has hopped at least once more than at its start |
| `Reforward.Engine.Drive` | src/engine/mod.rs:1793-1805 | A router is driven until it is caught up or stuck at a copy that does not fit, unless the source is longer than the inner guard lets it read, and hop levels rise |
| `Reforward.Engine.PassOverAll` | src/engine/mod.rs:1790-1806 | One recovery pass over all routers raises the least hop count of everything pending for routers not stuck; without progress, or at the hop cap, it leaves every router caught up or stuck |
| `Reforward.Engine.ReforwardRouters` | src/engine/mod.rs:1781-1816 | On any graph of at-least-once and exactly-once routers, cycles and full destinations included, the loop ends with every router caught up or stuck unless it reaches its pass cap or some topic ends with more than 1,024,000,000 records; unless an exactly-once router got stuck it takes at most nine progressing passes, so the cap of 64 is not reached |
| `Reforward.NeverStuck` | src/engine/mod.rs:2660-2680 | An at-least-once router into a topic that does not reject is never stuck, so there every router is caught up |
| `Reforward.DeferredIsStuck` | src/engine/mod.rs:2631-2680 | A pass that was deferred leaves its router at a copy that the destination, with what the pass added, neither holds nor takes |
| `RouterGraph.DfsTo` | src/engine/router.rs:297-321 | Returns a real walk to the target, or a visited set no edge leaves |
| `RouterGraph.Registry.WouldCreateCycle` | src/engine/router.rs:258-292 | Reports a real closed path exactly when dest reaches source over the other routers |
| `RouterGraph.Registry.Upsert` | src/engine/router.rs:67-98 | Refuses exactly the cycles not allowed, unchanged; otherwise the router is inserted or replaced, and a known router keeps its cursor, total and base while a new one starts at zero |
| `RouterGraph.Registry.UpsertCapped` | src/engine/router.rs:108-125 | Throttles exactly new routers at the cap, otherwise acts as upsert, counters included; a registry within the cap stays within it |
| `RouterGraph.Registry.Remove` | src/engine/router.rs:128-134 | Removes the router and its counters |
| `RouterGraph.Registry.RemoveTouchingTopic` | src/engine/router.rs:153-168 | Removes exactly the routers that touch the topic, and no other changes |
| `RouterGraph.RefusedExactlyWhenCyclic` | src/engine/router.rs:67-88 | On an acyclic graph an upsert is refused if and only if the new graph would be cyclic |
| `RouterGraph.StaysAcyclic` | src/engine/router.rs:67-168 | Every run of upserts without allow_cycle, removals and cascades keeps the topic graph acyclic |
| `Reader.Diff` | src/engine/mod.rs:3012-3199 | Answers with the deliverable records behind the cursor, as many as limit and byte budget allow and at least one |
| `Reader.ReadIsDetermined` | src/engine/mod.rs:3095-3162 | That contract fixes the answer |
| `Reader.PassedIsAccounted` | src/engine/mod.rs:3045-3162 | A seq a read passes that is neither deleted nor filtered is reported lost exactly when a cap, TTL or a trimmed source took it, and otherwise delivered exactly when it is not expired |
| `Reader.ReadMakesProgress` | src/engine/mod.rs:3098-3161 | A read behind the head moves the cursor whatever the limit and budget |
| `Reader.DeletesAreSilent` | src/engine/eviction.rs:52-61 | Without involuntary loss no read reports a tombstone |
| `Reader.TombstoneIsReal` | src/engine/eviction.rs:70-147 | A reported gap is not empty, is counted right, names a floor that reaches into it, and ends before the earliest seq it names |
| `Reader.RecreatedIsReadAnew` | src/engine/mod.rs:3045-3070 | A read with a cursor beyond the head reports the topic as recreated, with all its seqs as the gap, and delivers every record up to where it stops that is there, not lost, not deleted, not filtered and not expired, and at least one if there is one |
| `Reader.EarliestIsFirstKept` | src/engine/eviction.rs:40-51 | The earliest seq a read names lies behind everything lost, deleted from the front or reclaimed, and nothing below it can be read |
| `Reader.StopsShortOnlyWhenFull` | src/engine/mod.rs:3012-3030 | A read returns no more records than asked for or the default, nor more bytes if more than one, and stops short of the head only once it has as many records or the next would exceed the bytes |
| `Eviction.DualWatermark` | src/engine/eviction.rs:39-61 | The involuntary floor never passes the reported one and only deletes lie between |
| `ReaderRuns.PassedIsKnownExactlyWhen` | src/engine/mod.rs:3031-3180 | Over every run of appends with any timestamps, deletes, floor advances, reclaims and reads split into scan, floors and walk, each passed seq was delivered once and in order, reported, deleted or filtered if and only if it neither slipped through nor was hidden |
| `ReaderRuns.NoSilentLoss` | src/engine/mod.rs:3031-3180 | With timestamps in seq order, no retention pass between the floors and the walk of a read and nothing expired appended after its scan, each passed seq was delivered, reported, or deleted or filtered |
| `ReaderRuns.DeletesNeverReport` | src/engine/eviction.rs:8-18 | Runs without retention never report a gap |
| `ReaderRuns.DiffIsRead` | src/engine/mod.rs:2991-3199 | What the read returns after its retention pass, its cursor, its records and the gap it reports, is such a read with nothing between its parts |
| `ReaderRuns.AppendedIsDelivered` | src/engine/mod.rs:3095-3162 | A record appended behind a reader that has caught up is delivered by its next read unless it is deleted, filtered or expired |
| `ReaderRuns.SplitReadAccounts` | src/engine/mod.rs:3031-3110 | With the scan and the floors taken before the walk, a passed seq that is neither reported, deleted nor filtered is delivered if and only if it was not reclaimed in between and not expired above the floors |
| `ReaderRuns.SplitReadLoses` | src/engine/mod.rs:3031-3110 | A run in which such a seq slips through |
| `ReaderRuns.HiddenBehindYounger` | src/engine/topic_state.rs:1355-1379 | A run in which a record stamped before its predecessor expires first and is passed without a word |
| `ReaderRuns.EnforceRetention` | src/engine/topic_state.rs:1319-1469 | Floors only rise: the expiry floor over the expired run at the front and no further, the eviction floor until the record cap is met and then record by record until the byte cap is met or nothing is left, and not one further; everything dropped is accounted for and the front below the floor is reclaimed, whatever the timestamps |
| `ReaderRuns.ExpiryFloor` | src/engine/topic_state.rs:1355-1379 | The expiry floor ends on the last record of the expired run at the physical front |
| `ReaderRuns.TimelyIsSwept` | src/engine/topic_state.rs:1355-1379 | With timestamps in seq order that floor covers every live expired record |
| `ReaderRuns.CapFloor` | src/engine/topic_state.rs:1381-1424 | The eviction floor meets the record cap, then the byte cap or leaves nothing, and one seq less would not |
| `ReaderRuns.ByteCapFloor` | src/engine/topic_state.rs:1392-1424 | Evicts the oldest records not already lost until as many bytes are freed as the cap asks or none is left, and one seq less would not do |
| `ReaderRuns.ReclaimFront` | src/engine/topic_state.rs:1475-1505 | Everything below the reported floor and the deleted run behind it is reclaimed, and nothing that is neither lost nor deleted |
| `SharedFrames.DiffSharedFrames` | src/engine/mod.rs:2819-2987 | Returns the serialization of exactly what the plain read returns, of each record the seq, time and node and of tag, data and metadata what the variant asks for; same cursor, tombstone and caught-up flag, whatever the cache holds |
| `SharedFrames.StaysFaithful` | src/engine/broadcast.rs:18-24 | Appends and deletes leave cached frames right |
| `BroadcastCache.Cache.GetMany` | src/engine/broadcast.rs:116-127 | The cached frame of each seq, if any |
| `BroadcastCache.Cache.InsertSerialized` | src/engine/broadcast.rs:131-164 | Keeps the first frame of a slot; the order stays strictly sorted with the map's keys and holds exactly the 1024 largest seqs ever inserted |
| `BroadcastCache.KeepsLargest` | src/engine/broadcast.rs:148-162 | Inserting a seq and dropping the least over the bound keeps the largest |
| `Scheduler.ReadySet.MarkDirty` | src/sched.rs:109-116 | Queues a topic once in its band, behind those already there |
| `Scheduler.ReadySet.MarkDirtyFast` | src/sched.rs:126-145 | Only the first mark since the last clear touches the queues |
| `Scheduler.ReadySet.DrainOrder` | src/sched.rs:174-184 | Empties the bands in priority order, first in first out |
| `Scheduler.ReadySet.DrainOrderClearing` | src/sched.rs:151-160 | The same, clearing exactly the drained topics' flags |
| `Scheduler.BandsAreOrdered` | src/sched.rs:32-44 | A higher priority is never in a later band |
| `Scheduler.BandsBegin` | src/sched.rs:32-44 | The bands begin at 750, 500, 250 and 0 |
| `Scheduler.ServicedInOrder` | src/sched.rs:174-184 | A topic is serviced behind all topics of the bands before its own, and behind those queued before it in its band |
| `Wakeups.NoLostWakeup` | src/engine/mod.rs:2782-2810 | In every interleaving, once all marks are made and no pass is under way, a source some router is behind on is flagged or on the worker's list, and a set flag is queued, about to be queued or drained but not cleared |
| `Wakeups.StepKeepsInv` | src/sched.rs:126-160 | Every load, claim, push, drain, clear and pass keeps a router that is behind covered |

## Left out

- HTTP, SSE and WebSocket serving, authentication, configuration parsing and paging cursors: plumbing around the modelled operations.
- Segment files, sealing, hot/cold relocation, CRC and torn-tail handling: payloads are always resident and the WAL is an ordered log of frames.
- Bytes of a failed batch that reach the disk anyway: after a failed commit the model's log simply lacks the batch.
- Popped slots: in the write path's index reclaimed slots stay as holes below a reclaimed front, and a snapshot may find any part of the dead front reclaimed.
- TopicState.TopicIndex.ApplyDelete: does not run retention first, because `ReaderRuns.EnforceRetention` models it.
- Topics that take both direct and derived writes, changes of durability class, tightened caps on replay, and delete-then-recreate of one name.
- Survival of disk-class records: only when their seqs are handed out again is stated.
- AckReplay.BackExactlyWhen: speaks of fsync topics whose other writes succeed and are one step each, because `Durability` models failed commits and the steps in between; the ack of a disk or memory queue, which removes the job first and logs its delete best-effort, is left out.
- Source trimming during forwarding and deletes in a router's source between passes: between crashes the source of a forwarding run only grows.
- ExactlyOnce.OwnRecordsAreSent: asks that no other writer uses the router's keys, because an at-least-once ring keeps the metadata and brings a copy back; `EachRecordOnce` holds without it.
- Early returns of a router pass when hardening a retention floor fails: they do not re-mark the source, and the wake-up model has no such step.
- Effective-priority arithmetic and memory-ordering details: priorities are inputs and atomic accesses are atomic steps.
- Idempotent client writes (the dedupe gate) and byte quotas: separate from the protocols above.
- Forward.Walk: the size an idempotency entry adds to a record is a fixed function of key and names, because payload encoding is opaque.
- Reforward.Engine.ReforwardRouters: speaks of topics that evict nothing and whose records stay, between distinct topics as router validation demands; a source trimmed under a router is left out with all source trimming.
- QueueEngine.QueueTopic.RunClaimCohort: resolving sealed payloads is left out.
- QueueProjection.Projection.PushDelayed: asks that the job is not delayed yet, because a nack drops the lease it acts on and `QueueRuns.Conservation` shows that no leased job is delayed.
