# Verified models of the blob store

Dafny models of the parts of the blob store whose correctness spans several functions, steps or
services, with proofs that hold for every input, every run and every reachable state. Each Go
component that works by updating state is a class or a method with loops; each protocol between
components is a state machine over its steps.

| files | what they model |
|---|---|
| `ClusterMapping`, `SchedulerModel`, `SchedulerInvariant`, `SchedulerTheorems`, `SchedulerRuns`, `SchedulerHandlers` | the scheduler's repair and migrate managers together with the cluster manager's unit mapping |
| `CodeMode`, `RecoveryModel`, `OneBlob`, `ShardRecovery`, `Decodability` | the worker's recovery of lost shards by local and global stripes |
| `ReadBlob` | the access service's concurrent read of one blob |
| `LocationModel`, `LocationCodec`, `RangeRead` | locations: blobs, encoding, checksum, reading a range |
| `UploadTokens`, `PartUpload`, `PutThenGet` | upload in parts, and upload followed by a read |
| `Quorum` | write quorum, volume locking and the list of blobs a repair must carry over |
| `Tasklets` | cutting a repair into tasklets and laying one out in a buffer |
| `BidAllocator`, `IdSupply` | the allocator of blob ids, and the ids of an upload as it hands them out |
| `BlobDelete` | two-phase deletion under a changing mapping |
| `Consistency` | the data node's controller of requests under way |
| `Wrappers`, `Arithmetic`, `Counting` | shared helpers |

## Main results

**Scheduler.** A state holds the task tables, the mapping, the disk states, the queues, how far
each handler has got, the volume lock and the repair manager's fields. One step is one table write
or one remote call of one handler, and the update of a unit is two, the checks and the apply. So
handlers of different tasks interleave freely, every remote call may be applied and then look
failed, and a restart may fall between any two steps. In every reachable state: a worker is never
handed a chunk that is in use, not even after a restart; no two running tasks share a volume, so
loading the tables never panics; the mapping is a running task's source or its destination, so the
update never ends in the panic for an old chunk that does not match; a redo code means that the
update was not applied; each retried table update finds its record; and repair records name one
disk and no chunk twice. `SchedulerHandlers` has the handlers as imperative code: each one is
proved to take the state to a stated outcome and to be a run of the state machine.

Three of the properties one would expect fail, and each has its exact condition:

- *Reclaim.* A reclaim request allocates a new destination before the manager looks whether the
  task is still in its work queue. If the task's update was applied meanwhile, the next attempt to
  finish it is told that its destination is outdated, redoes it and ends in the panic.
  `StrayAllocationIsExact` states this for every reachable state, in both directions: after a stray
  allocation no run without a further one that overtakes an applied update panics, if and only if
  no task has been applied to that unit and not yet finished. `AppliedIsReachable` reaches a state with such a task, and `ReclaimFromQueueIsSafe`
  shows that a request for a task in its work queue meets the condition.
- *Acknowledged without effect.* An apply does nothing, and is acknowledged, when the unit's next
  epoch has moved since the checks. `AppliesExactly` says that the destination is in use after it
  if and only if the next epoch is still the destination's, `AcknowledgedWithoutEffect` reaches a
  state in which it is not, and `AcknowledgedIsInUse` shows that it always is when no allocation
  overtakes a proposal.
- *Generation.* Whatever any handlers do while records are generated, generating again would add
  exactly the chunks that came onto the disk meanwhile and are still there. So it adds nothing if
  and only if there are none (`GenerationIsIdempotent`). `ArrivalIsMissed` is a run with one.

**Recovery.** Every shard that recovery flags ok holds the bytes that were written, through the
direct, local, global and local-again stages, for any indexes, any order of replicas and any
failures. Success is characterised exactly, in terms of what can be fetched, for one index and any
number of blobs, and for one blob and any number of indexes. For one index, each blob's shard is
empty, can be fetched, or has enough other shards available in its local stripe or in the global
one.

Recovery does not bring back all that the code determines. Call a shard decodable if decoding
stripes, any of them in any order, leads to it; `DecodableIsDetermined` shows that its bytes are
then a function of those that are there. Recovery fills the local stripes only of zones with a
requested shard, and it tells the global stripe also of those lost shards that a local stripe has
restored. `RequestIsExact` says for every request when that matters: whatever else is available,
recovery brings exactly what is decodable if and only if

- no more data and parity shards are requested than the global stripe can do without, and in each
  zone that is passed over the local parity that is not requested is none, or so little that a full
  local stripe holds enough data and parity for the global stripe (the zones not passed over are
  those of the requested data and parity, or if there is none those of the requested local parity);
- or even with all other shards there is not enough for the global stripe.

For a single lost shard this depends on the tactic alone (`OneShardIsExact`), and of the thirteen
tactics exactly 6 + 3 + 3 and 4 + 4 + 2 fail (`TacticsThatGiveUp`). `GiveUpOnOne` and
`GiveUpOnDecodable` are calls of the recovery that fail on decodable shards, one lost shard and four.

**Reading.** Whatever the order of arrival, a read that succeeds has the right data shards, no send
blocks, and every run ends after at most two steps a shard. A read that fails had too few shards if
every empty shard is listed, and only then: `ListingIsExact` states that for every configuration,
with a failing run for each unlisted empty shard. A shard is not listed when the host of its disk
is not known.

**Locations and objects.** Decoding undoes encoding whatever follows. The buffer that `Encode`
makes is large enough exactly for fewer than 2^35 slices. The checksum works in 1024 bytes and
panics beyond: it is safe for every location exactly up to 49 slices and fails for every location
exactly from 339 on, and within the buffer a checksum that was filled in always verifies. A range
read that succeeds returns the bytes of the range, which lies in the object, and either each blob
it touches has enough shards or the short way works. Conversely it succeeds inside the object when
the short way works, and when each blob it touches has enough shards and has its empty shards
listed; `ListedIsExact` shows that the listing is needed. An upload in parts, with any
batches failing and being re-allocated, returns a location of stored parts, in order, none of them
deleted, and every part was sent with a token that admits it. `PutThenGet` joins these: upload,
encode, decode, read a range, and the range of the original bytes comes back. What the upload needs
of the ids that it is given, `ServedIsValid` derives from the runs of the allocators.

**Other.** A put is acknowledged exactly at quorum or with exactly one zone lost of three or more;
while a majority of chunks is locked none is; what is acknowledged can be read while the shards that
were written can be had; a blob is carried over by every repair if and only if
it is on a write quorum, so one that was acknowledged with a zone lost can be dropped. The id
allocator hands out no id twice and loses none; its 64-bit test is right exactly when the last id
asked for is below 2^64. A deletion that succeeds has marked every shard before deleting any and
has deleted at every location of the mapping, for every run over a history of the mapping, if and
only if no locations that were replaced come back in that history; epochs that grow rule that out.
A request that began before a synchronization is never pending after it.

## Model

| member | source | states |
|---|---|---|
| SchedulerTheorems.WorkerNeverGetsChunkInUse | scheduler/repair_mgr.go:509-586 | in every reachable state a destination in use belongs to a completed or finished record, no task in a work queue has it, and a restart puts no such destination into a work queue |
| SchedulerTheorems.OneRunningTaskPerVolume | scheduler/migrate.go:188-228 | in every reachable state running tasks have distinct, locked volumes, every lock has a task that holds it, and a restart is possible |
| SchedulerTheorems.MappingIsSourceOrDestination | scheduler/migrate.go:388-400 | the mapping of a running task's unit is its source or its destination, and no step of the task leads to the panic |
| SchedulerTheorems.RedoMeansNotApplied | scheduler/migrate.go:510-542 | when a task is redone the mapping still points at its source |
| SchedulerTheorems.UpdatesFindTheirRecord | scheduler/db/migrate_task_tbl.go:99-108 | each table update of a handler finds its record in one of the two states it filters by, so a retried update cannot spin |
| SchedulerTheorems.RepairRecordsNameOneDisk | scheduler/repair_mgr.go:120-148 | in every reachable state all repair records have the same disk and different chunks |
| SchedulerTheorems.GenerationIsIdempotent | scheduler/repair_mgr.go:257-283 | whatever any handlers do while records are generated, generating again at the end would add exactly the chunks that came onto the disk meanwhile and are still there, so nothing if and only if there are none |
| SchedulerTheorems.InsertFollowsRemain | scheduler/repair_mgr.go:309-330 | an inserted record takes its chunk, and only that, out of what is missing on the disk and out of what generation still has to do |
| SchedulerTheorems.RunTracks | scheduler/repair_mgr.go:257-330 | along every run that leaves generation open, exactly those chunks of the disk lack a record that generation has still to do or that came |
| SchedulerTheorems.ReachableIsKnown | scheduler/repair_mgr.go:257-330 | in every reachable state no repair record, and no chunk that is to get one, is ahead of the chunk in use |
| SchedulerTheorems.StepGrows | clustermgr/volumemgr/volumeunit.go:171-216 | every step keeps a unit's chunk and disk or moves it to a greater epoch |
| SchedulerRuns.ArrivalIsMissed | scheduler/repair_mgr.go:257-283 | a run in which a chunk is moved onto the disk while its records are generated, and generation ends without one for it |
| SchedulerTheorems.StrayAllocationIsExact | scheduler/service.go:104-135 | after an allocation for a reclaim that the queue refuses, all runs are free of the panic if and only if no unfinished task was applied to the unit |
| SchedulerTheorems.OvertakingAllocationPanics | clustermgr/volumemgr/volumeunit.go:111-135 | a run to the panic, for any state in which an unfinished task was applied to the unit |
| SchedulerTheorems.ReclaimFromQueueIsSafe | scheduler/migrate.go:603-629 | a reclaim of a task in its work queue meets that condition in every reachable state |
| SchedulerTheorems.SourceIsSafe | scheduler/service.go:104-135 | an allocation on the unit of a task under way meets that condition if the mapping is still the source |
| SchedulerRuns.AppliedIsReachable | scheduler/migrate.go:388-400 | a reachable state in which an update was applied and its task is still to be finished, so the condition can fail |
| SchedulerRuns.AppliesExactly | clustermgr/volumemgr/volumeunit.go:171-216 | in every reachable state an acknowledged apply has put the destination in use if and only if the next epoch is still the destination's |
| SchedulerRuns.AcknowledgedIsInUse | clustermgr/volumemgr/volumeunit.go:171-216 | over every run in which no allocation overtakes a proposal, an acknowledged destination is in use |
| SchedulerRuns.AcknowledgedWithoutEffect | clustermgr/volumemgr/volumeunit.go:188-195 | a reachable state in which an update is acknowledged and the source is still in use |
| SchedulerTheorems.RunKeepsInv | scheduler/migrate.go:252-441 | the invariant holds along every run |
| SchedulerInvariant.StepKeepsInv | scheduler/repair_mgr.go:375-667 | every step of every handler, any answer to any remote call, and a restart keep the invariant |
| SchedulerInvariant.PerformKeepsLocal | scheduler/migrate.go:359-441 | each handler step keeps a task's record, place and unit consistent with each other |
| SchedulerInvariant.CheckKeepsLocal | clustermgr/volumemgr/volumeunit.go:111-153 | so do the checks before an update, refused or passed, with the chunk not answering or the reply lost |
| SchedulerInvariant.ApplyKeepsLocal | clustermgr/volumemgr/volumeunit.go:171-216 | so does the apply: done, without effect because the next epoch moved, lost, or with its reply lost |
| SchedulerInvariant.LoadNeverPanics | scheduler/migrate.go:188-228 | with the invariant, loading finds no volume taken twice and no second repairing disk |
| SchedulerInvariant.RestartKeepsCore | scheduler/repair_mgr.go:120-167 | the places that loading gives the tasks are consistent with mapping and records |
| SchedulerInvariant.InsertRepairKeeps | scheduler/repair_mgr.go:309-330 | inserting a repair record keeps the invariant |
| SchedulerInvariant.ClearRepairedKeeps | scheduler/repair_mgr.go:596-655 | clearing a repaired disk's records keeps the invariant |
| SchedulerInvariant.StrayKeeps | scheduler/service.go:104-135 | an allocation without a task keeps it if no unfinished task was applied to the unit |
| SchedulerHandlers.VolTaskLocker.TryLock | scheduler/vol_task_locker.go:39-52 | succeeds exactly when the volume was free, and the volume is locked after it |
| SchedulerHandlers.VolTaskLocker.Unlock | scheduler/vol_task_locker.go:54-62 | frees that volume and no other |
| SchedulerHandlers.Scheduler.PrepareTask | scheduler/migrate.go:252-346 | the whole new state: unchanged if the volume is locked or cannot be read, else the task is left queued, ended early or in the work queue with a new destination; and this is a run of the state machine |
| SchedulerHandlers.Scheduler.FinishTaskInAdvance | scheduler/migrate.go:487-501 | the record is closed, the task leaves the queue and the volume is freed |
| SchedulerHandlers.Scheduler.AllocAndSave | scheduler/repair_mgr.go:420-459 | with a destination the record is saved as prepared and queued for workers, without one the task stays queued and the volume is freed |
| SchedulerHandlers.Scheduler.CompleteTask | scheduler/migrate.go:631-655 | a report is taken exactly for a task in the work queue with the same destination; the new state for each way the save can end |
| SchedulerHandlers.Scheduler.ReclaimTask | scheduler/migrate.go:603-629 | a destination is allocated in any case, unless the allocation fails; the task gets it exactly if it is in the work queue with the old one; the whole new state; and this is a run of the state machine, except for a refused request on a unit to which an unfinished task was applied |
| SchedulerHandlers.Scheduler.FinishTask | scheduler/migrate.go:359-441 | the whole new state for any answers: finished, with its destination in use unless an allocation overtook the proposal; back with the workers with its source in use; or still in the finish queue; and this is a run of the state machine |
| SchedulerHandlers.Scheduler.UpdateMapping | scheduler/repair_mgr.go:531-552 | the same from the saved record on |
| SchedulerHandlers.Scheduler.UpdateVolume | clustermgr/volumemgr/volumeunit.go:111-216 | the code that the checks and the apply come to, and the unit after them; the code is never the one for an old chunk that does not match, which the caller answers with a panic |
| SchedulerHandlers.Scheduler.CloseTask | scheduler/migrate.go:402-441 | closes the record and frees the volume, unless a migration could not release or unlock |
| SchedulerHandlers.Scheduler.RedoTask | scheduler/repair_mgr.go:554-586 | with a new destination the task goes back to the workers, without one it stays to be finished |
| SchedulerHandlers.Scheduler.AddTask | scheduler/migrate.go:470-481 | a new record and its place in the prepare queue, and nothing else |
| SchedulerHandlers.Scheduler.ReadTables | scheduler/repair_mgr.go:120-167 | queues, locks and repairing disk are those of the tables; neither panic is met |
| SchedulerHandlers.Scheduler.Load | scheduler/migrate.go:188-228 | a restart from any reachable state gives a reachable state with the same tables |
| SchedulerHandlers.Scheduler.GenDiskRepairTasks | scheduler/repair_mgr.go:257-330 | adds one queued record for each chunk of the disk without one, keeps the others, leaves none missing |
| SchedulerHandlers.Scheduler.CollectTask | scheduler/repair_mgr.go:184-229 | which disk is being repaired after a round, when records are generated, and what a failed listing leaves |
| SchedulerHandlers.Scheduler.ReviseRepairTask | scheduler/repair_mgr.go:231-255 | after a restart, records are completed exactly if the disk was not marked repairing |
| SchedulerHandlers.Scheduler.TakeUpDisk | scheduler/repair_mgr.go:206-229 | the remembered broken disk goes before a listed one, and is remembered when generation fails |
| SchedulerHandlers.Scheduler.CheckRepairedAndClear | scheduler/repair_mgr.go:596-655 | clears exactly when all repair records are done, the disk is empty and marking succeeds, and then removes exactly the repair records |
| CodeMode.TacticsAreValid | common/codemode/codemode.go:50-66 | every tactic of the table is valid, has N < quorum <= N + M, and with local parity survives a zone |
| CodeMode.ZonesPartition | common/codemode/codemode.go:247-265 | every shard is in exactly one zone, the one computed from its index |
| CodeMode.ZoneIsSimple | common/codemode/codemode.go:286-318 | a zone lists no shard twice, and its global shards before its local parity |
| ShardRecovery.ShardRecover.RecoverShards | worker/shard_ec_recover.go:393-449 | whatever is flagged ok is true and stays; success means every requested shard of every blob is ok; for one index, success if and only if every blob is recoverable; for one blob and any indexes, success if and only if its stripes recover them from what can be fetched |
| ShardRecovery.ShardRecover.GetShard | worker/shard_ec_recover.go:858-860 | a shard handed out is the one that was written; otherwise an error |
| ShardRecovery.ShardRecover.constructor | worker/shard_ec_recover.go:352-391 | nothing asked, nothing stored |
| ShardRecovery.ShardRecover.AllocBuf | worker/shard_ec_recover.go:872-887 | a buffer for each index, none lost or made up; it succeeds when the pool has enough |
| ShardRecovery.ShardRecover.PutShard | worker/shard_ec_recover.go:245-277 | stores the shard exactly if it can be fetched, and touches no other blob |
| ShardRecovery.ShardRecover.DownloadReplica | worker/shard_ec_recover.go:655-690 | a replica is asked at most once and never if forbidden; each blob gains exactly the shards available there |
| ShardRecovery.ShardRecover.Download | worker/shard_ec_recover.go:638-653 | the same for a list of replicas |
| ShardRecovery.ShardRecover.Gather | worker/shard_ec_recover.go:748-765 | the decoder's input in stripe order, and exactly the positions that are missing |
| ShardRecovery.ShardRecover.SetShards | worker/shard_ec_recover.go:189-219 | the decoded shards are stored at the missing positions and present ones are kept |
| ShardRecovery.ShardRecover.RepairBid | worker/shard_ec_recover.go:733-807 | all shards of the stripe if there were at least n, else no change |
| ShardRecovery.ShardRecover.Repair | worker/shard_ec_recover.go:733-807 | the same for each blob of a list, and no other |
| ShardRecovery.ShardRecover.CollectFailBids | worker/shard_ec_recover.go:839-856 | exactly the blobs that miss one of the indexes |
| ShardRecovery.ShardRecover.GenDownloadPlans | worker/shard_ec_recover.go:67-103 | the plans: first n well replicas, then one more each, until all were used |
| ShardRecovery.ShardRecover.RunPlan | worker/shard_ec_recover.go:628-633 | what a blob has after one plan, and which blobs still fail |
| ShardRecovery.ShardRecover.RepairStripe | worker/shard_ec_recover.go:619-636 | a blob is repaired exactly when what it has and what is available of the stripe reach n and no more than m are bad |
| ShardRecovery.ShardRecover.RecoverByGlobalStripe | worker/shard_ec_recover.go:604-617 | that outcome for the global stripe |
| ShardRecovery.ShardRecover.RepairZone | worker/shard_ec_recover.go:809-826 | that outcome for the local stripe of a zone that has one of the indexes |
| ShardRecovery.ShardRecover.RecoverByLocalStripe | worker/shard_ec_recover.go:580-602 | that outcome for the index's local stripe; nothing happens without local parity |
| ShardRecovery.ShardRecover.RecoverGlobalReplicaShards | worker/shard_ec_recover.go:451-481 | for one data or parity index, success if and only if every blob has enough in its local or the global stripe |
| ShardRecovery.ShardRecover.GlobalsOf | worker/shard_ec_recover.go:526-537 | exactly the data and parity indexes of the zones of the given indexes |
| ShardRecovery.ShardRecover.MissedBy | worker/shard_ec_recover.go:539-558 | exactly those of them that some blob misses |
| ShardRecovery.ShardRecover.RecoverThroughGlobal | worker/shard_ec_recover.go:501-521 | after the local stripe failed: success if and only if the global stripe has enough |
| ShardRecovery.ShardRecover.RecoverLocalReplicaShards | worker/shard_ec_recover.go:483-521 | for one local parity index, success if and only if every blob has enough in its local or the global stripe |
| ShardRecovery.ShardRecover.DirectGetShard | worker/shard_ec_recover.go:560-578 | each blob gains exactly what can be fetched directly; the blobs left are those that miss one |
| ShardRecovery.ShardRecover.SplitIdxs | worker/shard_ec_recover.go:417-427 | global indexes and local parity apart |
| RecoveryModel.WellOfStripe | worker/shard_ec_recover.go:67-85 | after any shuffle the well replicas are the same set, and reach n exactly if no more than m are bad |
| RecoveryModel.TrackedRound | worker/shard_ec_recover.go:619-636 | one more plan keeps account of what a blob has, whether it failed and what was asked |
| RecoveryModel.TrackedLast | worker/shard_ec_recover.go:619-636 | after the last plan that account is the outcome of the stripe |
| RecoveryModel.AfterLocal | worker/shard_ec_recover.go:451-465 | a blob repaired locally had enough; one that failed had too few in the local stripe and has gained all that is available of it |
| RecoveryModel.AfterGlobal | worker/shard_ec_recover.go:467-480 | repaired globally after that exactly if it had enough |
| RecoveryModel.AfterGlobalBad | worker/shard_ec_recover.go:501-506 | the zone's global shards are all there, or too few shards were available |
| RecoveryModel.AfterLocalAgain | worker/shard_ec_recover.go:508-521 | the local stripe then gives the parity exactly if there was enough |
| RecoveryModel.RecoverableIsEnough | worker/shard_ec_recover.go:393-449 | the condition on what can be fetched is the condition on what is at hand after the direct stage |
| RecoveryModel.LocalIsParity | worker/base/stripe_utils.go:73-82 | the membership question for local parity agrees with the order of indexes |
| OneBlob.AloneRound | worker/shard_ec_recover.go:619-636 | for one blob and any bad indexes, one more plan either completes the stripe, exactly as what can be had allows, or leaves the blob with all that was asked for |
| OneBlob.AloneEnd | worker/shard_ec_recover.go:619-636 | after the last plan the blob has the whole stripe exactly if enough of it can be had and no more than m are bad |
| OneBlob.NextZone | worker/shard_ec_recover.go:580-602 | the local stripes of several zones add up: each zone with a lost index is completed exactly if it can be |
| OneBlob.DoneByGlobal | worker/shard_ec_recover.go:451-481 | for data and parity indexes, all are recovered exactly if the local stripes bring them or the global stripe can be filled after those |
| OneBlob.LocalsOutcome | worker/shard_ec_recover.go:483-521 | for local parity, all are recovered exactly if the local stripes bring them, at once or after the global stripe has filled in |
| Decodability.DecodableIsDetermined | worker/shard_ec_recover.go:733-807 | what is decodable from some shards is determined by them: two blobs with the same bytes there have the same bytes here |
| Decodability.DecodableIs | worker/shard_ec_recover.go:733-807 | decodable means: by the local stripes, each once, or else with enough for the global stripe after them |
| Decodability.RecoveredIsDecodable | worker/shard_ec_recover.go:393-449 | whatever is recovered is decodable |
| Decodability.DecodesWhatItCan | worker/shard_ec_recover.go:393-449 | a request that meets the condition of RequestIsExact is recovered if it is decodable |
| Decodability.TooManyGivesUp | worker/shard_ec_recover.go:451-481 | if more data and parity shards are requested than the global stripe can do without, and the others suffice for it, shards with which the request is decodable and not recovered |
| Decodability.PassedOverGivesUp | worker/shard_ec_recover.go:809-826 | if a zone without a requested shard can be needed, shards with which the request is decodable and not recovered |
| Decodability.GivesUp | worker/shard_ec_recover.go:393-449 | such shards for every request that does not meet the condition |
| Decodability.RequestIsExact | worker/shard_ec_recover.go:393-449 | for every request: whatever else is available, it is recovered exactly if it is decodable, if and only if it meets the condition on the requested shards stated above |
| Decodability.OneShardIsExact | worker/shard_ec_recover.go:809-826 | for each single shard: recovered exactly if decodable, whatever else is available, if and only if there is no local parity or a zone's data and parity less its local parity are at least N |
| Decodability.TacticsThatGiveUp | common/codemode/codemode.go:50-66 | of all tactics exactly 6 + 3 + 3 and 4 + 4 + 2 fail that |
| Decodability.GiveUpOnDecodable | worker/shard_ec_recover.go:67-103 | a call on one blob of 6 + 3 + 3 shards, of which four are lost, that fails although they are decodable |
| Decodability.GiveUpOnOne | worker/shard_ec_recover.go:809-826 | a call for one lost shard of 6 + 3 + 3 that fails although it is decodable, through the local stripe of another zone |
| ShardRecovery.InZone | worker/base/stripe_utils.go:85-100 | exactly the indexes of that zone |
| ReadBlob.ReadIsExact | access/stream_get.go:269-423 | every run has at most two steps a listed shard; one that cannot go on has succeeded, with the right data, exactly if n shards can be had |
| ReadBlob.SuccessIsRight | access/stream_get.go:353-423 | success means that every data shard is right and n shards can be had |
| ReadBlob.FailureIsRight | access/stream_get.go:377-406 | failure means that fewer than n can be had, if every empty shard is listed |
| ReadBlob.UnlistedEmptyGivesUp | access/stream_get.go:402-405 | for every configuration with an unlisted empty shard, readable shards and a run that fails although n shards can be had |
| ReadBlob.ListingIsExact | access/stream_get.go:269-423 | every empty shard is listed if and only if no run, whichever shards are readable, ends wrongly |
| ReadBlob.EndIsExact | access/stream_get.go:269-423 | whatever a read ends with, it is the right data shards, and only if n shards can be had; when every empty shard is listed, always if they can |
| ReadBlob.ReadEnds | access/stream_get.go:269-423 | there is a run to an end |
| ReadBlob.NeverStuck | access/stream_get.go:290-423 | until the outcome is known some step is possible |
| ReadBlob.RunsAreShort | access/stream_get.go:290-423 | every run is bounded |
| ReadBlob.SendNeverBlocks | access/stream_get.go:402-410 | there is room for each token that is sent |
| ReadBlob.StepKeepsInv | access/stream_get.go:290-423 | every step keeps all listed shards accounted for and all shards at hand true |
| ReadBlob.Judge | access/stream_get.go:353-406 | the verdict computed from the map of results is that of the state machine |
| ReadBlob.CountBad | access/stream_get.go:377-382 | the number of failed shards |
| ReadBlob.GenSortedVuidByIDC | access/stream_get.go:709-760 | every shard with a known host exactly once, nearest first, punished hosts last |
| RangeRead.GenLocationBlobs | access/stream_get.go:656-707 | when a range is accepted, with the sum in 64 bits; the pieces are those of the blobs the range meets, in order |
| RangeRead.AcceptsExactly | access/stream_get.go:656-664 | a well-formed location accepts exactly the ranges inside the object |
| RangeRead.PieceInBounds | access/stream_get.go:675-704 | a piece is not empty, lies inside its blob and is the part of the range there |
| RangeRead.PiecesAreRange | access/stream_get.go:656-707 | the pieces put together are the bytes of the range |
| RangeRead.WriteShards | access/stream_get.go:228-248 | the bytes written are the stretch of the shards put together |
| RangeRead.DataShardOnly | access/stream_get.go:485-567 | the stretch read from the needed shards alone; it fails exactly if one of them cannot be read |
| RangeRead.ReadDirect | access/stream_get.go:128-145 | exactly when the short way is taken and works, and that it gives the bytes of the piece |
| RangeRead.WritePieces | access/stream_get.go:150-260 | the pieces' bytes in order; it succeeds only if every blob has n shards to be had, and always then if their empty shards are listed |
| RangeRead.Get | access/stream_get.go:95-264 | success gives exactly the bytes of the range, inside the object, and only if every blob it touches has n shards to be had or the short way works; inside the object it succeeds if the short way works, or if every blob it touches has n shards to be had and its empty shards listed |
| RangeRead.ListedIsExact | access/stream_get.go:402-405 | a blob with n shards to be had is read, whichever they are, if and only if its empty shards are all listed |
| RangeRead.PiecesCover | access/stream_get.go:656-707 | all pieces can be read exactly if all blobs that the range touches can, and are listed if those are |
| RangeRead.DirectIs | access/stream_get.go:128-145 | when the short way works, in terms of the one piece there is |
| RangeRead.EmptyDataShardIndexes | access/stream_get.go:775-788 | exactly the data shards that start at or after the end of the data; never the first |
| RangeRead.EmptyShardIsZero | access/stream_get.go:775-788 | those shards are all zeros |
| RangeRead.ShardsConcat | common/ec/buf.go:67-85 | the data shards put together are the data followed by zeros |
| RangeRead.ShardsHoldBlob | common/ec/buf.go:76-82 | the shard size is positive and N shards hold the blob |
| LocationModel.Spread | api/access/proto.go:344-366 | the blobs of the slices in order, all full but the last, with sizes that add up to the object |
| LocationCodec.RoundTrip | api/access/proto.go:371-447 | decoding undoes encoding, whatever bytes follow, and leaves just those |
| LocationCodec.VarintRoundTrip | api/access/proto.go:287-309 | reading a variable-length number undoes writing it, whatever follows |
| LocationCodec.Encode2 | api/access/proto.go:287-309 | the encoding at the front of the buffer, and the rest of the buffer as it was |
| LocationCodec.Encode | api/access/proto.go:274-282 | the encoding, or a panic exactly if it is longer than the buffer that is made for it |
| LocationCodec.EncodeIsSafeExactly | api/access/proto.go:274-282 | no location of so many slices panics if and only if they are fewer than 2^35 |
| LocationCodec.EncodingFits | api/access/proto.go:274-282 | that buffer is large enough below 2^35 slices |
| LocationCodec.EncodingOverflows | api/access/proto.go:274-282 | from 2^35 slices on there is a location that does not fit |
| LocationCodec.DecodeLocation | api/access/proto.go:371-447 | parses or fails as the grammar does, and tells the bytes it took |
| LocationCodec.ReadSlices | api/access/proto.go:422-444 | the same for the slices |
| LocationCodec.BodyIgnoresCrc | access/server_location.go:50-68 | what is checksummed does not depend on the checksum |
| LocationCodec.CalcCrc | access/server_location.go:50-68 | the sum of the encoding after its checksum, or a panic exactly if the encoding is longer than 1024 bytes |
| LocationCodec.FillCrc | access/server_location.go:71-77 | a panic exactly in that case; else the location is signed and otherwise unchanged |
| LocationCodec.VerifyCrc | access/server_location.go:80-86 | a panic exactly in that case; else true exactly for a signed location |
| LocationCodec.FillThenVerify | access/server_location.go:71-86 | a checksum that was filled in verifies, for every location whose encoding fits the buffer |
| LocationCodec.ChecksumIsSafeExactly | access/server_location.go:50-57 | no location of so many slices is too long for the checksum if and only if they are at most 49 |
| LocationCodec.ChecksumFailsExactly | access/server_location.go:50-57 | every location of so many slices is too long if and only if they are at least 339 |
| LocationCodec.SignCrc | access/server_location.go:88-127 | signs exactly if all given locations are signed, agree with it, and hold all its ids; a panic exactly if a location that is too long comes before any error |
| LocationCodec.CollectBids | access/server_location.go:110-114 | exactly the ids of the given slices are added |
| LocationCodec.ContainsBids | access/server_location.go:117-124 | whether all ids of the slices are among those |
| UploadTokens.GenTokens | access/server.go:587-613 | the tokens: one for the full blobs of each slice and one for a last, shorter blob |
| UploadTokens.ChosenAdmits | common/uptoken/token.go:58-98 | the token that the client takes for a part exists and admits that part |
| UploadTokens.SmallAdmits | access/server.go:590-593 | an object smaller than a blob has one blob and one token |
| UploadTokens.LargeAdmits | api/access/client.go:600-604 | for other objects the taken token admits the part, the last one included |
| UploadTokens.PartialIsLast | access/server.go:591-609 | only the last part can be shorter, and its size is the remainder |
| PartUpload.PutParts | api/access/client.go:441-708 | success means that every part is stored in order under the returned, signed location and none is deleted; every part ever sent carries a token that admits it; with nothing in the way it succeeds |
| PartUpload.PutBatch | api/access/client.go:588-684 | a batch ends with its parts stored, after any number of re-allocations; one that is accepted at once changes no allocation |
| PartUpload.Feed | api/access/client.go:597-615 | each buffer gets the next blob and a token that admits it |
| PartUpload.Commit | api/access/client.go:617-630 | the position moves past the stored parts |
| PartUpload.SpliceAligns | api/access/client.go:670-680 | after splicing, the blobs are the stored ones followed by the new allocation, and tokens and sizes go along |
| PartUpload.SpliceIds | api/access/client.go:670-680 | no id twice in the spliced location and none of a deleted part |
| PartUpload.SpliceKeeps | api/access/client.go:670-680 | splicing keeps the whole invariant of the upload |
| PartUpload.TokenAt | api/access/client.go:600-604 | at every position past the splice the token is there and admits the part |
| PartUpload.WholeIsWellFormed | api/access/client.go:670-680 | the location has as many blobs as the whole object needs |
| PartUpload.ReadBuffers | api/access/client.go:501-533 | the buffers are the next parts of the object |
| PartUpload.Start | api/access/client.go:484-499 | the first allocation and its tokens start the upload |
| PartUpload.Sign | api/access/client.go:686-701 | a location from several allocations is signed; it fails exactly if the service does not sign |
| PutThenGet.UploadIsStored | access/stream_get.go:95-264 | what an upload has stored is what a read expects |
| PutThenGet.PutThenGet | api/access/client.go:441-708 | upload, encode, decode and read a range, each blob by any run of the concurrent read: success gives the range of the original bytes; with nothing in the way, every shard list complete and enough shards, success exactly for a range inside the object |
| Quorum.WriteToBlobnodes | access/stream_put.go:341-402 | exactly the failed shards in order; acknowledged exactly at quorum, or with three zones or more if one was lost and the others are complete |
| Quorum.CollectWrites | access/stream_put.go:341-365 | the failed shards, and the number of data and parity shards that were written |
| Quorum.ToleratesZone | access/stream_put.go:374-401 | counting complete and lost zones finds exactly the case of one lost zone |
| Quorum.JudgeZone | access/stream_put.go:379-387 | whether all or none of a zone's shards were written |
| Quorum.GetReplicasBids | worker/bid_getter.go:86-114 | the listings of exactly the well replicas that answer |
| Quorum.MergeBids | worker/bid_getter.go:117-133 | exactly the listed blobs, each with a size that was listed |
| Quorum.CountExist | worker/bid_getter.go:165-181 | how many well replicas have the blob, unless one has marked it deleted |
| Quorum.GetBenchmarkBids | worker/bid_getter.go:136-218 | too few listings exactly below the minimum, never the panic, and exactly the blobs that are not marked and can be decoded |
| Quorum.QuorumIsCarried | worker/bid_getter.go:136-224 | a blob on a write quorum and nowhere marked is among them, whichever replicas fail to list |
| Quorum.BelowQuorumIsDropped | worker/bid_getter.go:136-224 | for any blob below the write quorum, replicas whose listings drop it |
| Quorum.CarriedExactly | worker/bid_getter.go:136-224 | a blob is carried over whichever replicas list if and only if it is on a write quorum |
| Quorum.LostZoneCanBeDropped | access/stream_put.go:374-401 | for every tactic of three zones or more and each zone, a put that is acknowledged without that zone and can be dropped by a repair |
| Quorum.MajorityLocked | worker/migrate_worker_impl.go:151-188 | whether M + L + 1 chunks report that they are locked |
| Quorum.LockStopsWrites | access/stream_put.go:367-402 | with such a majority locked, no put is acknowledged |
| Quorum.TacticsQualify | access/stream.go:177-182 | every tactic, with its own quorum or an allowed other one, meets what that needs |
| Quorum.AcknowledgedHoldsEnough | access/stream_put.go:367-402 | an acknowledged put, by quorum or with a zone lost, has at least N data and parity shards stored |
| Quorum.AcknowledgedIsRead | access/stream_get.go:269-423 | on every tactic, with its own quorum or an allowed other one, an acknowledged blob is read back by every run that ends, while the written shards can be had and the empty ones are listed |
| Tasklets.BidsSplit | worker/bid_getter.go:227-264 | fails exactly if blobs come without a limit or one exceeds it; the tasklets put together are the sorted blobs, each as long as the limit allows; the count never mismatches |
| Tasklets.CountBids | worker/bid_getter.go:254-258 | the number of blobs in all tasklets |
| Tasklets.PlanningDataLayout | worker/shard_ec_recover.go:149-174 | regions inside the buffer, as long as their blobs and apart; it fails exactly if they do not fit |
| Tasklets.LayOutTasklets | worker/migrate_worker_impl.go:98-110 | whenever splitting succeeds, every tasklet is laid out in a buffer of the limit's length |
| BidAllocator.RunIsSafe | allocator/bidmgr.go:82-178 | over every run of allocations and refills no id is given twice and no fetched id is lost |
| BidAllocator.StepKeepsInv | allocator/bidmgr.go:82-178 | every step conserves ids: fetched is handed out plus at hand, without overlap |
| BidAllocator.AllocIsExact | allocator/bidmgr.go:122-178 | as many ids as asked for, none given before, all from the ranges at hand, no empty range |
| BidAllocator.AllocFailsExactly | allocator/bidmgr.go:122-178 | fails exactly when too many are asked for or too few are at hand |
| BidAllocator.RunIsConserving | allocator/bidmgr.go:82-178 | over every run, failed allocations included, what was handed out is exactly what the answers gave, and the rest of what was fetched is still at hand |
| BidAllocator.TestIsRightExactly | allocator/bidmgr.go:144-144 | the test in 64 bits is right exactly when the last id asked for is below 2^64 |
| BidAllocator.InstallKeeps | allocator/bidmgr.go:111-119 | a refill never overwrites a live backup range |
| BidAllocator.BidMgr.constructor | allocator/bidmgr.go:64-80 | one range at hand, nothing given |
| BidAllocator.BidMgr.Alloc | allocator/bidmgr.go:122-178 | the step of the state machine, and the ids as above |
| BidAllocator.BidMgr.Take | allocator/bidmgr.go:144-177 | ids from the current range, or from it and the backup, which then becomes current |
| BidAllocator.BidMgr.AskForMore | allocator/bidmgr.go:127-135 | a request, dropped when the loop is busy |
| BidAllocator.BidMgr.Answered | allocator/bidmgr.go:92-109 | the first answer of three tries, or none |
| BidAllocator.BidMgr.InstallScope | allocator/bidmgr.go:111-119 | the new range becomes backup, or current if there is none |
| BidAllocator.SplitBlobs | access/stream_alloc.go:182-199 | fails exactly if there are fewer ids than blobs; the 32-bit counts add up to the number of blobs exactly if none is cut off, and with as many ids as blobs each range is used whole |
| BidAllocator.SmallCountsFit | access/stream_alloc.go:182-199 | no count is cut off below 2^32 blobs, and with 2^32 from one range one is |
| BidAllocator.AllocBlobs | access/stream_alloc.go:108-206 | ids for a number of blobs, split into slices: it succeeds exactly if the allocation does, and below 2^32 blobs the slices have as many ids as asked for, those that were handed out |
| IdSupply.AllocIsGood | access/stream_alloc.go:182-206 | an allocation for the blobs of an object has just as many ids as the object needs, none twice, in at most two slices that fit |
| IdSupply.AnswersAreApart | allocator/volumemgr.go:210-230 | two requests never get an id in common, whichever allocators answer and whatever else those hand out |
| IdSupply.ServedIsValid | api/access/client.go:441-708 | what an upload demands of its allocations holds for answers of allocators that fetch fewer than 2^32 ids at a time |
| BlobDelete.DeleteMgr.DoWithCheckVolConsistency | tinker/do_with_check.go:35-62 | success means that the version found unchanged had every shard marked and then deleted at its location, if no locations return; with a mapping that stays and shards that answer it succeeds |
| BlobDelete.DeleteMgr.DeleteShard | tinker/delete_mgr.go:593-635 | what each answer does to the stage and to the shard, with a mark on record not repeated |
| BlobDelete.DeleteMgr.AskShards | tinker/delete_mgr.go:532-556 | the requests to all shards in any order: which are outdated, and where it stops at another error |
| BlobDelete.DeleteMgr.RetryShards | tinker/delete_mgr.go:577-591 | the outdated ones at their new location, up to the first error |
| BlobDelete.DeleteMgr.DeleteShards | tinker/delete_mgr.go:519-591 | one phase: on success every index is dealt with at its old or its refreshed location, all of them versions of the history |
| BlobDelete.DeleteMgr.DeleteBlob | tinker/delete_mgr.go:501-509 | marking, then deleting, with what is known to be marked kept true |
| BlobDelete.DeleteMgr.TryDelete | tinker/do_with_check.go:43-59 | one try, and whether the version after it is the one before |
| BlobDelete.DeleteMgr.HandleMsg | tinker/delete_mgr.go:452-490 | a failed attempt puts the stages it reached into the message, and they are true; success as for one checked deletion |
| BlobDelete.DeleteMgr.RunMessage | tinker/delete_mgr.go:370-440 | over all attempts stages stay true; the message succeeds if the volume settles while attempts are left; success means deletion at every location of the version that is cached then, if no locations return |
| BlobDelete.DeleteMgr.Pass | tinker/delete_mgr.go:64-68 | time passes: the mapping may change, stages may be cleared and late answers come in |
| BlobDelete.Unchanged | tinker/do_with_check.go:35-62 | if the version before and after is the same and no locations return, the deletion has reached every location of it |
| BlobDelete.PhaseMarks | tinker/delete_mgr.go:511-513 | after the marking phase every index is marked |
| BlobDelete.PhaseKeeps | tinker/delete_mgr.go:519-591 | one phase keeps stages and marks true, and on success has used only versions of the history and dealt with every index |
| BlobDelete.DeleteKeeps | tinker/delete_mgr.go:501-509 | on success every index was marked before any was deleted, and every index was deleted |
| BlobDelete.CheckedKeeps | tinker/do_with_check.go:35-62 | the whole checked deletion keeps the invariant, and its success is right if no locations return |
| BlobDelete.GrowingEpochsDoNotReturn | tinker/client/cluster_mgr.go:42-64 | when a changed location has a greater epoch, no locations return, whatever the status does |
| BlobDelete.SettledSucceeds | tinker/do_with_check.go:35-62 | with a mapping that stays and shards that answer the deletion succeeds |
| BlobDelete.CheckIsExact | tinker/do_with_check.go:35-62 | for every history of the mapping: no locations return in it if and only if every run over it that succeeds has marked every shard and deleted at every location |
| BlobDelete.ReturnMisses | tinker/do_with_check.go:35-62 | for every history in which locations return, a run that succeeds with a location never deleted |
| Consistency.SynchronizeIsQuiet | blobnode/core/consistency.go:59-85 | from the start of any run, no request begun at or before T is pending at any time after Synchronize returned T |
| Consistency.RunIsQuiet | blobnode/core/consistency.go:35-85 | over every run requests stay ordered and what was waited for stays ended |
| Consistency.StepKeepsInv | blobnode/core/consistency.go:35-85 | every step keeps that |
| Consistency.FrontSuffices | blobnode/core/consistency.go:59-71 | the front of the list has passed exactly if every request has |
| Consistency.ConsistencyController.constructor | blobnode/core/consistency.go:87-91 | no request, time zero |
| Consistency.ConsistencyController.BeginRequest | blobnode/core/consistency.go:35-49 | a new, later stamp at the end of the list |
| Consistency.ConsistencyController.EndRequest | blobnode/core/consistency.go:51-57 | takes that request off the list, wherever it is |
| Consistency.ConsistencyController.CurrentTime | blobnode/core/consistency.go:74-79 | the last stamp given |
| Consistency.ConsistencyController.Check | blobnode/core/consistency.go:59-71 | done exactly if no request at or before the anchor is pending |

## Left out

Assumptions of the models and what they do not capture:

- ShardRecovery.ShardRecover.RecoverShards: several blobs together with several indexes, and several indexes that are asked for directly first, have only what success means, not when it comes; the two callers ask for one index of many blobs (worker/shards_migrate.go:104), or for several of one blob without asking directly (worker/repair_shard.go:119).
- RecoveryModel.WellOfStripe: the Reed-Solomon arithmetic is not modelled; the decoder is any function that gives all shards from n true ones.
- ShardRecovery.ShardRecover.PutShard: whether a shard can be fetched is fixed during one recovery, and a fetch that is called off after its replica failed counts as one that cannot. Reuse of buffer memory and the checksum in the request are not modelled.
- ReadBlob.ReadIsExact: reconstruction from n shards always succeeds. Punishing hosts, retries inside one shard read and circuit breaking are inside the answer whether a shard can be read.
- RangeRead.Get: needs the number of blobs times the blob size to be below 2^64, as any location that the service allocates has; failing to find the volume counts as a blob that cannot be read.
- SchedulerTheorems.OneRunningTaskPerVolume: two requests for the same task do not interleave within one handler, a proposal to the cluster manager is settled by the time its call ends, and a retried insert makes one record. Worker leases and the cancelling of tasks, which only move a task within its work queue, are left out, and so is the packing of unit, index and epoch into one number.
- SchedulerHandlers.Scheduler.CheckRepairedAndClear: marking a disk repaired succeeds only for a disk that was marked repairing, as the cluster manager demands (clustermgr/diskmgr/diskmgr.go:337).
- SchedulerHandlers.Scheduler.GenDiskRepairTasks: the generator of task ids gives ids that are not in use.
- PartUpload.PutParts: hashing, retries over hosts, the order of puts within a batch and the clean-up after a failed upload are left out. The parameter `patience` bounds the number of allocations when the number of tries has no limit.
- UploadTokens.ChosenAdmits: the authentication code and the expiry of a token are left out.
- LocationCodec.DecodeLocation: the memory that a large slice count asks for is not modelled.
- IdSupply.ServedIsValid: the object and one blob more stay below 2^64, where the number of blobs wraps around (access/stream.go:431-433), and a range of ids is fetched by one allocator only.
- BidAllocator.RunIsSafe: the cluster manager's ranges are new and end a whole range below 2^64; TestIsRightExactly says what the test does beyond.
- BlobDelete.DeleteMgr.RunMessage: delays, de-duplication and moving messages between queues are left out. A volume keeps its id and its code mode, and each location stands at the place of its index.
- Tasklets.BidsSplit: the sorted list is an argument, since sorting is a library call.
- Consistency.ConsistencyController.Check: waiting and waking are one look at a time; the stamp does not wrap.

Parts of the repository without a model, because they would add only easy members or are plumbing: HTTP and RPC
layers, configuration, metrics, the command line, disk and chunk storage formats, the key-value and raft storage of
the cluster manager, disk heartbeats and free-space accounting of volumes, message queue consumers other than
deletion, the balance and drop managers' choice of what to move, and background inspection.
