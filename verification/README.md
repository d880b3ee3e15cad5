# DataDistribution in Dafny

DataDistribution builds time frames (TFs) from sub-time-frames (STFs). Detector data is gathered
into STFs; each StfSender announces its STFs to the TfScheduler; the scheduler groups them by id
and chooses a TfBuilder; that builder fetches the STFs from the senders and merges them. This
project models the parts of that chain whose correctness depends on every interleaving and every
input, and proves what they keep.

| modules | part of the system |
|---|---|
| `IntervalMap`, `RegionSpace`, `RegionAllocator` | the shared-memory region allocator with its two release disciplines |
| `EventRecords`, `StfLedger`, `StfScheduler`, `StfRuns` | the scheduler's bookkeeping of announced STFs, call by call and over whole runs |
| `BuilderDirectory` | the scheduler's memory estimates and topological assignment of builders |
| `StfModel`, `SubTimeFrames`, `StfStreams` | the STF data model, merging, and STFs as message streams |
| `IovTransport`, `UcxPlan`, `UcxTransfer` | the header and data stream, and the remote-memory transfer plan |
| `EquipmentOrder`, `DplStreams`, `DplAdapters` | the full and reduced streams to the data processing layer |
| `StfFileFormat`, `StfFileWriter`, `StfFileReader`, `StfFiles` | STF files with their index |
| `TfBuildState`, `TfBuildLedger`, `TfBuildProtocol` | requesting, receiving, pacing and completing TFs in a builder |
| `StfOwnership`, `StfSenderOutput` | who owns an STF in a sender |
| `StfSequencer` | the sequencing of STFs in the StfBuilder |
| `Collections`, `Wrappers` | sorting, ordered maps, options |

Objects whose methods update fields are classes; every section under one lock is one method, and
the order in which methods are called is left open. A concurrent component is described twice:
a module of values says what the state means and what each step does to it, and proves that the
steps keep the invariant; a module with the class proves that the methods, with their loops and
branches, do exactly these steps. Ghost histories record what was requested, accepted, queued or
taken since the beginning of a run. Where the source hands a choice to a clock, the network, the
random generator or another process, the model takes a parameter.

Some expectations are false of the code, and are stated as exact conditions with an example:

- the stale cleanup's assertion on the completed maximum (`StaleCleanup`, `LateUpdate`);
- "an id completes at most once", which holds from the recorder's floor on, and fails exactly for
  the ids below it that are still accepted (`AtMostOnce`, `QueuedTwiceExactly`);
- "a dropped id is not pending", which the drop thread asserts: it fails, with more than one sender,
  for ids below the dropped recorder's floor (`DropNext`, `PendingAfterDropExactly`) and for drops
  of an earlier run (`DropOfEarlierRun`, `AnyMayBePending`);
- the data size reported after a merge, which is stale when it was cached before
  (`SizeAfterMerge`, `StaleSize`);
- the receiver's assertion on part offsets, which an empty part breaks unless the next part joins
  it (`Transfer`, `AllBeginInside`, `JoinedExactlyBridged`);
- the deletion of a time frame that no sender promises data for, whose assertion fails exactly when
  the time frame has left before, empty (`Pace`, `NobodysMayLeave`, `NobodyPromises`);
- merging in any order: the first sub-time-frame is neither skipped nor brought up to date, which
  matters for one without a real origin (`MergeInAnyOrderOfStfs`, `SeededInAnyOrder`, `OrderMatters`);
- messages that use the reserved description on the way to the processing layer
  (`StreamRoundTrip`);
- the over-estimate of sizes in 64-bit arithmetic (`OverEstimateCovers`).

Where code and comment disagree the code is followed: a builder report with a last built id above
the last scheduled one leaves the estimate unchanged, although the comment inside the other
branch speaks of it (src/TfScheduler/TfSchedulerTfBuilderInfo.cxx:108-124).

`dafny verify dfyconfig.toml` checks the whole project.

## Model

| member | source | states |
|---|---|---|
| `IntervalMap.AddMeaning` | src/common/MemoryUtils.h:631-647 | Adding a range to the free map raises the count of exactly its points by one, and leaves the map sorted with touching ranges merged |
| `IntervalMap.CanonicalUnique` | src/common/MemoryUtils.h:192-224 | A merged free map is determined by its points: the order and batching of what was added cannot be seen |
| `IntervalMap.AddTotal` | src/common/MemoryUtils.h:631-647 | A range that was not free before adds exactly its length to the free total |
| `IntervalMap.RunInOneSegment` | src/common/MemoryUtils.h:568-593 | A run of free points lies within one range of the merged map |
| `IntervalMap.RemoveMeaning` | src/common/MemoryUtils.h:606-609 | Taking a range out frees its points from the map and no others |
| `RegionSpace.CarveBlock` | src/common/MemoryUtils.h:532-547 | Cutting a block from the front of the extent keeps the exact partition of the segment into blocks, extent and free ranges |
| `RegionSpace.MergedReturn` | src/common/MemoryUtils.h:187-230 | Returning several blocks as one merged interval set keeps the partition and adds exactly their bytes to the free total |
| `RegionSpace.FitsExactlyWhenRunExists` | src/common/MemoryUtils.h:549-609 | With the leftover extent merged back, a free range is long enough if and only if the segment has that many consecutive bytes outside live blocks |
| `RegionSpace.FirstIsPreferred` | src/common/MemoryUtils.h:570-576 | First fit settles on the lowest free run that is long enough |
| `RegionSpace.LongestIsPreferred` | src/common/MemoryUtils.h:577-583 | Longest fit settles on the lowest of the longest free runs |
| `RegionSpace.FreeSpaceIsUnusedSpace` | src/common/MemoryUtils.h:445-446 | Extent plus free ranges hold exactly the bytes outside live blocks |
| `RegionSpace.FreeRangesDetermined` | src/common/MemoryUtils.h:187-230 | Live blocks and extent determine the free ranges, whatever was allocated and released before |
| `RegionAllocator.LowerBoundFindsBlock` | src/common/MemoryUtils.h:277-280 | The least last-byte key that is not below a pointer is the key of the block that holds it |
| `RegionAllocator.OneHolder` | src/common/MemoryUtils.h:674-689 | No two blocks contain the same message |
| `RegionAllocator.AllBackStep` | src/common/MemoryUtils.h:243-285 | Releasing one more message, in any order, changes only its own block, which goes exactly when all its messages are back |
| `RegionAllocator.CutStep` | src/common/MemoryUtils.h:416-433 | Cutting one more message counts it in the one block that contains it |
| `RegionAllocator.Allocator.FreeIsUnused` | src/common/MemoryUtils.h:445-446 | In every valid state the reported free memory is the number of bytes outside live blocks |
| `RegionAllocator.Allocator.TryAlloc` | src/common/MemoryUtils.h:532-547 | A block comes from the front of the extent, disjoint from all live blocks, if and only if the extent is long enough |
| `RegionAllocator.Allocator.TryReclaim` | src/common/MemoryUtils.h:549-609 | The leftover extent is merged back and the strategy's range becomes the extent, if one is long enough |
| `RegionAllocator.Allocator.DoAllocate` | src/common/MemoryUtils.h:457-528 | One attempt succeeds if and only if a long enough run of bytes outside live blocks exists, so both strategies refuse the same requests; the block is aligned, disjoint, where the strategy prefers it, and charged once |
| `RegionAllocator.Allocator.ReleaseExact` | src/common/MemoryUtils.h:170-230 | A batch of exact regions stops being live, no other block does, and the partition and the free count stay right |
| `RegionAllocator.Allocator.MessagesFromPtrs` | src/common/MemoryUtils.h:416-433 | A batch of messages is counted in the blocks that contain them, with or without the cached block |
| `RegionAllocator.Allocator.NewMessage` | src/common/MemoryUtils.h:340-357 | A message gets a block of its own, with reference count one when blocks are counted |
| `RegionAllocator.Allocator.ReleaseOne` | src/common/MemoryUtils.h:243-275 | A released message lowers the count of its block, and the last one returns exactly that block |
| `RegionAllocator.Allocator.ReleaseRefCounted` | src/common/MemoryUtils.h:235-285 | After any batch in any order, a block that had messages is returned if and only if all of them are back; reference counts equal the messages that are out |
| `EventRecords.Remembered` | src/common/base/Utilities.h:165-197 | After any sequence of recordings, exactly the recorded ids at or above the first one are remembered |
| `EventRecords.EventRecorder.SetEvent` | src/common/base/Utilities.h:165-182 | Records the id unless it is below the first one; tells whether the record changed |
| `EventRecords.EventRecorder.GetEvent` | src/common/base/Utilities.h:185-197 | Reports exactly the remembered ids |
| `StfLedger.EraseConserves` | src/TfScheduler/TfSchedulerStfInfo.h:201-218 | A drop request erases only updates of its id, and every accepted update still has exactly one place |
| `StfLedger.CompleteConserves` | src/TfScheduler/TfSchedulerStfInfo.cxx:536-571 | Queuing an entry as complete moves its updates, and every accepted update still has exactly one place |
| `StfLedger.AtMostOnce` | src/TfScheduler/TfSchedulerStfInfo.cxx:445-461 | Within a run, an id at or above the floor of the built recorder is queued as complete at most once |
| `StfLedger.CompletedAllMeaning` | src/TfScheduler/TfSchedulerStfInfo.cxx:225-236 | Completing an ascending list of ids queues their entries unchanged in that order and leaves all others alone |
| `StfLedger.CompletionFlushes` | src/TfScheduler/TfSchedulerStfInfo.cxx:531-571 | Completing an id queues all smaller pending ids in ascending order and then it; exactly the larger ids stay pending |
| `StfLedger.DroppedAllMeaning` | src/TfScheduler/TfSchedulerStfInfo.cxx:363-366 | Dropping several ids removes exactly these and requests a drop for each |
| `StfRuns.JudgedIsStep` | src/TfScheduler/TfSchedulerStfInfo.cxx:413-571 | What the scheduler does with an update of the current run is one step of the run |
| `StfRuns.CleanedUpIsStep` | src/TfScheduler/TfSchedulerStfInfo.cxx:181-236 | A stale cleanup is one possible step of the run |
| `StfRuns.DropsAreSteps` | src/TfScheduler/TfSchedulerStfInfo.cxx:363-366 | Dropping several time frames is one step of the run for each, in order |
| `StfRuns.TakeSection` | src/TfScheduler/TfSchedulerStfInfo.cxx:55-571 | Whatever section a thread executes next, the scheduler's state is again that after a run: the run so far with exactly the steps of that section, or a new run begun by an announcement |
| `StfRuns.TakeSections` | src/TfScheduler/TfSchedulerStfInfo.cxx:55-571 | In whatever order the threads take the lock, the state is that after a run of these steps, with all that runs keep |
| `StfRuns.RunKeeps` | src/TfScheduler/TfSchedulerStfInfo.cxx:181-571 | Every sequence of announcements, stale cleanups and drops keeps the books consistent, nothing complete pending, and everything pending or queued within the accepted range below the floor |
| `StfRuns.TwiceIsBelow` | src/TfScheduler/TfSchedulerStfInfo.cxx:445-461 | In any run, an id that was queued as complete more than once is below the floor of the built recorder, and not below the accepted range |
| `StfRuns.BelowIsTwice` | src/common/base/Utilities.h:171-173 | Below the floor an id is forgotten: for any number of senders, if all announce the floor and then twice such an id, the id is queued as complete twice |
| `StfRuns.QueuedTwiceExactly` | src/TfScheduler/TfSchedulerStfInfo.cxx:445-518 | Some run with this floor queues an id more than once if and only if the id is below the floor and still in the accepted range |
| `StfLedger.DroppedIsNotPending` | src/TfScheduler/TfSchedulerStfInfo.cxx:385-389 | An id dropped in the current run is not pending, unless it is below the floor of the dropped recorder |
| `StfRuns.BelowIsPending` | src/common/base/Utilities.h:171-173 | With more than one sender: when two ids are dropped, the smaller one second, and the smaller one is announced again, it is pending |
| `StfRuns.PendingAfterDropExactly` | src/TfScheduler/TfSchedulerStfInfo.cxx:385-389 | Some run with this first dropped id has a dropped id pending if and only if that id is below the first dropped one and there is more than one sender |
| `StfRuns.AnyMayBePending` | src/TfScheduler/TfSchedulerStfInfo.h:185-199 | A new run knows nothing of drops that still wait in the queue: any id may become pending, if and only if there is more than one sender |
| `StfScheduler.Scheduler.DropNext` | src/TfScheduler/TfSchedulerStfInfo.cxx:376-399 | Requested drops leave the queue in order; the assertion that the id is not pending holds for ids dropped in this run that the recorder did not forget |
| `StfScheduler.DropOfEarlierRun` | src/TfScheduler/TfSchedulerStfInfo.cxx:385-389 | That assertion can fail: an id dropped in one run is announced in the next one before the drop is taken from the queue |
| `StfScheduler.Scheduler.AddStfInfo` | src/TfScheduler/TfSchedulerStfInfo.cxx:413-571 | An update of a newer run starts fresh books. It is accepted if and only if the scheduler runs, its id is in no recorder, the senders are complete, at most 97 percent of the buffer are in use, and the id is pending or at most 440 below the last one; each refusing status has its own condition. An accepted one is the latest of its entry, which waits or, complete, is queued behind all smaller ones; for a rejected one the entry goes and a drop is requested, unless its id is in a recorder |
| `StfRuns.AcceptedWasAdmissible` | src/TfScheduler/TfSchedulerStfInfo.cxx:463-493 | In any run an update is accepted at most as often as it was announced while the scheduler was running, the senders were complete and its buffer was within the limit; it is filed with its sender, id, size and time of arrival |
| `StfLedger.SettledMeans` | src/TfScheduler/TfSchedulerStfInfo.cxx:519-571 | An accepted update is the last of its entry; a complete entry is queued behind all smaller ones in ascending order, and exactly the larger ones stay as they were |
| `StfScheduler.Scheduler.CompleteUpTo` | src/TfScheduler/TfSchedulerStfInfo.cxx:536-571 | The flush loop empties the front of the pending map up to the completed id |
| `StfScheduler.Scheduler.Reset` | src/TfScheduler/TfSchedulerStfInfo.h:186-199 | A new run clears the pending entries without dropping them, and the recorders |
| `StfScheduler.Scheduler.StaleCleanup` | src/TfScheduler/TfSchedulerStfInfo.cxx:181-236 | Exactly the stale ids in front of the first fresh one are queued, once each, ascending and with their updates; an entry is stale when the update that came last is further from now than the timeout, and the least entry that stays is not; the assertion on the completed maximum holds if and only if, before the call, nothing is pending or the least pending id is fresh or above that maximum |
| `StfScheduler.LateUpdate` | src/TfScheduler/TfSchedulerStfInfo.cxx:230-230 | That assertion can fail: with two senders, 5 completes, 3 is announced late by one of them and then cleaned up as stale |
| `StfScheduler.FindOverdue` | src/TfScheduler/TfSchedulerStfInfo.cxx:321-359 | The watermark scan gives up, below the id where it stops, exactly the overdue time frames the full sender contributed to, and stops only for a reason |
| `StfScheduler.GivenUpMeans` | src/TfScheduler/TfSchedulerStfInfo.cxx:321-359 | What is given up are the smallest time frames the sender contributed to, each not above the completed ones and begun at least a second ago; the sizes of the sender's first updates add up to more than one GiB with the last of them only, and the scan stops for that or at one that is not old |
| `StfScheduler.Scheduler.HighWatermark` | src/TfScheduler/TfSchedulerStfInfo.cxx:310-367 | These are dropped, the sender reports are cleared, and nothing else changes; no id is dropped that was reported as dropped |
| `StfScheduler.Scheduler.ScheduleNext` | src/TfScheduler/TfSchedulerStfInfo.cxx:55-147 | The queued vector is non-empty, of one id and not longer than the number of senders; unless a builder took it on, its id is dropped |
| `StfScheduler.MakeRequest` | src/TfScheduler/TfSchedulerStfInfo.cxx:80-88 | The build request carries the total size and names exactly the senders of the updates |
| `BuilderDirectory.OverEstimateCovers` | src/TfScheduler/TfSchedulerTfBuilderInfo.cxx:138-138 | The ten percent over-estimate covers the size if and only if the 64-bit product does not wrap |
| `BuilderDirectory.OverEstimateTight` | src/TfScheduler/TfSchedulerTfBuilderInfo.cxx:138-138 | Without a wrap the over-estimate is the size and a tenth of it, rounded down |
| `BuilderDirectory.TfBuilderInfo.Update` | src/TfScheduler/TfSchedulerTfBuilderInfo.cxx:92-124 | The estimate never exceeds the last confirmed free memory minus what was assigned since, and rises only when the last scheduled time frame is the last built one |
| `BuilderDirectory.Directory.UpdateTfBuilderInfo` | src/TfScheduler/TfSchedulerTfBuilderInfo.cxx:42-126 | A report joins, updates or removes one builder and touches no other; an estimate rises only when the id last built is the one scheduled last before; all invariants hold |
| `BuilderDirectory.Directory.FindTfBuilderForTf` | src/TfScheduler/TfSchedulerTfBuilderInfo.cxx:130-198 | The first ready builder with room is charged the over-estimated size, without underflow, and moved to the end, and its last scheduled id and number of time frames stay; none is found only if none has room |
| `BuilderDirectory.Directory.MarkTfBuilderWithTfId` | src/TfScheduler/TfSchedulerTfBuilderInfo.h:154-164 | Marks one known builder and leaves estimates alone |
| `BuilderDirectory.Directory.RemoveReady` | src/TfScheduler/TfSchedulerTfBuilderInfo.h:130-150 | The builder and all its equipment go, the others stay in their order; utilizations still count assignments, and stay balanced if they were |
| `BuilderDirectory.Directory.FindTfBuilderForTopoStf` | src/TfScheduler/TfSchedulerTfBuilderInfo.cxx:201-245 | Equipment stays with its builder; new equipment goes to the first of the least utilized ready ones, which keeps utilizations within one of each other |
| `BuilderDirectory.AssignOne` | src/TfScheduler/TfSchedulerTfBuilderInfo.cxx:229-236 | One more assignment adds one to the count of its builder only |
| `BuilderDirectory.Directory.Expire` | src/TfScheduler/TfSchedulerTfBuilderInfo.cxx:280-288 | Stale builders leave the map, the ready list and all assignments together; the others stay in their order |
| `StfModel.TotalSizeSplit` | src/common/SubTimeFrameDataModel.cxx:44-86 | The data size does not depend on the order in which the map is visited |
| `StfModel.RefreshedMeans` | src/common/SubTimeFrameDataModel.cxx:70-95 | Field by field, what refreshed headers tell and what stays as it was |
| `StfModel.RefreshTwice` | src/common/SubTimeFrameDataModel.cxx:70-95 | Updating all headers again changes nothing |
| `StfModel.RefreshedSize` | src/common/SubTimeFrameDataModel.cxx:70-95 | Updating headers does not change the data size |
| `StfModel.MergeGathers` | src/common/SubTimeFrameDataModel.cxx:153-170 | A merge keeps every message of every equipment, in the order of the sub-time-frames |
| `StfModel.MergeEquipment` | src/common/SubTimeFrameDataModel.cxx:154-170 | The merged equipment is exactly that of the sub-time-frames that are not skipped |
| `StfModel.MergeHeader` | src/common/SubTimeFrameDataModel.cxx:117-127 | The header comes from the first sub-time-frame whose origin is not null |
| `StfModel.MergeKeepsHeader` | src/common/SubTimeFrameDataModel.cxx:124-127 | A header with a real origin is never replaced |
| `StfModel.MergeInAnyOrder` | src/common/SubTimeFrameDataModel.cxx:117-173 | With no equipment in two places, every order of merging into an empty time frame gives the same data |
| `StfModel.SeedIsMerged` | src/TfBuilder/TfBuilderInput.cxx:301-310 | Starting from the first sub-time-frame is the same as merging it if and only if it is not a skipped one with something of its own |
| `StfModel.SeededHeader` | src/TfBuilder/TfBuilderInput.cxx:301-310 | Starting from the first, the header is that of the first sub-time-frame whose origin is not null |
| `StfModel.SeededInAnyOrder` | src/TfBuilder/TfBuilderInput.cxx:301-310 | For sub-time-frames that a merge starts from as it would see them: with no equipment in two places, every order gives the same data if and only if no skipped one has something of its own |
| `StfModel.MergedInAnyOrder` | src/TfBuilder/TfBuilderInput.cxx:301-310 | The same when a sub-time-frame shows other headers as the first one than it would when merged: all orders give the same data if and only if none does, and no skipped one has something of its own |
| `StfModel.UnionSize` | src/common/SubTimeFrameDataModel.cxx:154-170 | The merged size is the sum of the sizes |
| `StfModel.SizeAfterMerge` | src/common/SubTimeFrameDataModel.cxx:117-173 | The size reported after a merge is right if and only if nothing was cached before or nothing with a payload was merged |
| `SubTimeFrames.SubTimeFrame.UpdateStf` | src/common/SubTimeFrameDataModel.cxx:38-102 | Brings every header and the size up to date, once: each message with parts gets the frame counter, the run number and, if it is known, the first orbit of its sub-time-frame, and the count of its parts; everything else, the order and the equipment stay |
| `SubTimeFrames.SubTimeFrame.GetEquipmentIdentifiers` | src/common/SubTimeFrameDataModel.cxx:104-115 | Lists exactly the equipment of the map, each once |
| `SubTimeFrames.SubTimeFrame.MergeStf` | src/common/SubTimeFrameDataModel.cxx:117-173 | Adopts the other data as the merge function says and leaves the cached size as it is |
| `SubTimeFrames.SubTimeFrame.AddStfDataStart` | src/common/SubTimeFrameDataModel.h:434-445 | The new message with its one part is the last of its equipment and can be found where the result says; nothing else changes |
| `SubTimeFrames.SubTimeFrame.AddStfDataAppend` | src/common/SubTimeFrameDataModel.h:448-457 | The message that was started has one more part at its end, unless it has none; no other message and no other equipment changes |
| `SubTimeFrames.SubTimeFrame.AddStfDataReadout` | src/common/SubTimeFrameDataModel.h:396-417 | An equipment without messages gets its first one, any other one more part for its last message, whose header stays; nothing else changes |
| `SubTimeFrames.SeedIsSeen` | src/common/SubTimeFrameDataModel.cxx:117-127 | As the first one a sub-time-frame counts as it does when merged, unless it has a null origin and headers that a merge would bring up to date |
| `SubTimeFrames.MergeInAnyOrderOfStfs` | src/TfBuilder/TfBuilderInput.cxx:301-310 | With no equipment in two places, all orders of the same sub-time-frames merge to the same data if and only if each one is up to date, has a real origin or would not change by a refresh, and no skipped one has something of its own |
| `SubTimeFrames.OrderMatters` | src/common/SubTimeFrameDataModel.cxx:117-128 | An order that matters although nothing is skipped or in two places: a message of a null origin keeps its own run number as the first one, and gets that of its sub-time-frame otherwise |
| `SubTimeFrames.MergeInto` | src/TfBuilder/TfBuilderInput.cxx:301-310 | Merging the rest of a time frame into its first sub-time-frame keeps every message in order and takes the header of the first real one; every other order of the same ones gives the same data, when no equipment is in two places and none makes a difference by being the first |
| `SubTimeFrames.StaleSize` | src/common/SubTimeFrameDataModel.cxx:117-173 | An empty sub-time-frame whose size was asked for reports size zero after data was merged into it |
| `StfStreams.CollectFlatAt` | src/common/SubTimeFrameVisitors.cxx:45-62 | Taken apart in any order and filed again, every equipment has its messages in order |
| `StfStreams.CutParts` | src/common/SubTimeFrameVisitors.cxx:98-125 | Handing parts out to headers undoes the separation into headers and parts |
| `IovTransport.Serialize` | src/common/SubTimeFrameVisitors.cxx:36-73 | Headers and parts of all messages, side by side, in the order of the visit |
| `IovTransport.DeserializeInto` | src/common/SubTimeFrameVisitors.cxx:98-125 | Files the messages that the headers and parts describe |
| `IovTransport.SendAndReceive` | src/common/SubTimeFrameVisitors.cxx:36-125 | The receiver has the same header and, per equipment, the same messages with the same parts |
| `UcxPlan.SamePointerSameRegion` | src/StfSender/StfSenderOutputUCX.h:102-155 | Comparing regions by address only is enough, because larger regions are looked up first |
| `UcxPlan.ExtendPlan` | src/StfSender/StfSenderOutputUCX.cxx:277-293 | Extending the current transaction over a small gap keeps the plan right |
| `UcxPlan.NewPlan` | src/StfSender/StfSenderOutputUCX.cxx:294-312 | Opening a transaction, perhaps in a new region, keeps the plan right |
| `UcxPlan.SplitsAt` | src/StfSender/StfSenderOutputUCX.cxx:271-313 | Neighbouring parts share a transaction if and only if they are in one region and at most the allowed gap apart without overlap |
| `UcxTransfer.MakePlan` | src/StfSender/StfSenderOutputUCX.cxx:243-313 | Fails if and only if some part is in no region; else every part lies in its transaction, every transaction in its region, numbers equal positions, part counts are exact, and transaction lengths sum to part lengths plus the total gap |
| `UcxTransfer.WrappedGap` | src/StfSender/StfSenderOutputUCX.cxx:279-280 | The unsigned gap is small if and only if the parts do not overlap and are close |
| `UcxTransfer.Describe` | src/StfSender/StfSenderOutputUCX.cxx:216-239 | Every data part gets a numbered entry, in the order of the visit |
| `UcxTransfer.BackInOrder` | src/TfBuilder/TfBuilderInputUCX.cxx:455-455 | Sorting by index restores the original order of the parts |
| `UcxTransfer.CutOut` | src/TfBuilder/TfBuilderInputUCX.cxx:462-475 | The parts cut out of the fetched transactions are the original parts, byte for byte and in order |
| `UcxPlan.AllBeginInside` | src/TfBuilder/TfBuilderInputUCX.cxx:466-469 | For every plan, the receiver's assertions hold if and only if every empty part is joined by the next one in the sorted order |
| `UcxPlan.JoinedExactlyBridged` | src/StfSender/StfSenderOutputUCX.cxx:243-313 | When only empty buffers share an address, and sizes tell regions apart, that is so if and only if every empty buffer has the next address in use in the same region and at most the allowed gap behind it |
| `UcxPlan.TieDependsOnSort` | src/StfSender/StfSenderOutputUCX.cxx:243-249 | With an empty and a non-empty buffer at one address the outcome depends on which of them the sort puts first |
| `UcxTransfer.Transfer` | src/TfBuilder/TfBuilderInputUCX.cxx:404-475 | The builder gets the same messages per equipment, byte for byte and in order, for every placement of the buffers, every allowed gap and every order of the visit; it fails if and only if a buffer is in no registered region; the assertions hold if and only if every empty buffer is joined by the next one in the plan, and, when only empty buffers share an address and sizes tell regions apart, if and only if every empty buffer has the next address in use close behind it |
| `UcxPlan.LonelyAtEnd` | src/TfBuilder/TfBuilderInputUCX.cxx:468-468 | Every empty part that the next one does not join breaks the assertion |
| `EquipmentOrder.AscendingUnique` | src/common/SubTimeFrameDPL.cxx:68-71 | There is one sending order, so equal sub-time-frames give equal streams and files |
| `EquipmentOrder.SortEquipment` | src/common/SubTimeFrameDataModel.h:139-155 | Sorts by description, origin and sub-specification and keeps exactly the equipment |
| `DplStreams.ParseMessage` | src/common/SubTimeFrameDPL.cxx:350-397 | The parser takes up one message of either kind of stream at a time |
| `DplStreams.ParseStream` | src/common/SubTimeFrameDPL.cxx:295-403 | A full or a reduced stream parses to its messages in order, except single ones with the reserved description |
| `DplStreams.StreamRoundTrip` | src/common/SubTimeFrameDPL.cxx:31-134 | Either stream brings back every message with its parts if and only if no single message uses the reserved description; the header is then that of the sub-time-frame |
| `DplStreams.ArrivedUnchanged` | src/common/SubTimeFrameDPL.cxx:84-128 | The reduced stream changes nothing; the full one agrees when headers tell the size of their first part |
| `DplStreams.StreamTells` | src/common/SubTimeFrameDPL.cxx:31-134 | What the headers of both streams tell, at the place of each part of each message |
| `DplAdapters.StfToDplAdapter.Visit` | src/common/SubTimeFrameDPL.cxx:31-134 | Produces that stream for the equipment in ascending order and leaves the sub-time-frame without data: first the header of the sub-time-frame; then, full, a header in front of each part that tells its size, its index and the number of parts, or, reduced, one header in front of all parts of a message, which announces their number; the other fields are those of the message |
| `DplAdapters.Receive` | src/common/SubTimeFrameDPL.cxx:295-403 | The parser loop does what the parsing function says, for every input and every error |
| `DplAdapters.SendAndReceive` | src/common/SubTimeFrameDPL.cxx:31-438 | Both streams carry over header, equipment, message order and grouping of parts; bringing the headers up to date at the end changes nothing when they were so before |
| `StfFileFormat.SizeIsWritten` | src/common/SubTimeFrameFileWriter.cxx:196-213 | The predicted data size is the number of bytes written |
| `StfFileFormat.BlocksTell` | src/common/SubTimeFrameFileWriter.cxx:249-271 | Each part of each message is one block, in order, headed by its own size and index and else the fields of its message, without the stacked headers |
| `StfFileFormat.RecordSize` | src/common/SubTimeFrameFileWriter.cxx:230-233 | The size in the meta record is the number of bytes of the whole |
| `StfFileFormat.RecordLaidOut` | src/common/SubTimeFrameFileWriter.cxx:232-271 | Where everything is in a record: the meta record with the size of the whole and the time, the index with one element per equipment in order, and the blocks |
| `StfFileFormat.ItemsTell` | src/common/SubTimeFrameFileReader.cxx:320-335 | Reading keeps the header of a block exactly when its split index is zero or it counts one part at most |
| `StfFileFormat.IndexCovers` | src/common/SubTimeFrameFileWriter.cxx:218-227 | Index elements start at zero, follow each other without a gap, and end with the data |
| `StfFileFormat.IndexAgrees` | src/common/SubTimeFrameFileWriter.cxx:187-227 | The byte range of an element holds exactly the blocks of its equipment, as many as it says |
| `StfFileFormat.GroupBlocks` | src/common/SubTimeFrameFileReader.cxx:320-335 | Reading the blocks back groups the parts of every message as they were |
| `StfFileFormat.RestoredRoundTrip` | src/common/SubTimeFrameFileReader.cxx:60-78 | Filed again, the equipment has its messages in order |
| `StfFileFormat.StorableIsReadable` | src/common/SubTimeFrameFileWriter.cxx:180-305 | The record of any sub-time-frame that fits the layout tells its true size and can be read back |
| `StfFileFormat.RefreshedIsAnnounced` | src/common/SubTimeFrameDataModel.cxx:70-95 | Headers that were brought up to date announce the parts their messages have |
| `StfFileWriter.SubTimeFrameFileWriter.BufferedWrite` | src/common/SubTimeFrameFileWriter.h:97-119 | Whole or in chunks, exactly the given bytes are appended |
| `StfFileWriter.SubTimeFrameFileWriter.Visit` | src/common/SubTimeFrameFileWriter.cxx:180-228 | Collects the messages in ascending order of equipment with their size and the index |
| `StfFileWriter.SubTimeFrameFileWriter.Write` | src/common/SubTimeFrameFileWriter.cxx:235-305 | Appends exactly the record of the sub-time-frame and returns its number of bytes, which is the size the meta record says |
| `StfFileReader.StackFoundExactly` | src/common/SubTimeFrameFileReader.cxx:80-122 | When no header claims to be smaller than its common part, a stack is found if and only if the bytes ahead are headers chained by their flags, not too many, and its size is the sum of theirs |
| `StfFileReader.SubTimeFrameFileReader.GetHeaderStackSize` | src/common/SubTimeFrameFileReader.cxx:80-122 | Ends after at most sixteen headers, keeps the position, and finds the size of a stack of up to fifteen headers that lies within the file; a longer or incomplete one has size zero |
| `StfFileReader.SubTimeFrameFileReader.ReadMeta` | src/common/SubTimeFrameFileReader.cxx:205-247 | Of any file, a meta record is read if and only if a header with its description is there, it announces more than itself, and the file is long enough for what it announces; otherwise the file is closed |
| `StfFileReader.SubTimeFrameFileReader.ReadBlock` | src/common/SubTimeFrameFileReader.cxx:272-335 | Of any file, a block is read if and only if a stack of headers decodes and its payload is in the file; its header is kept for a first or single part; otherwise the file is closed |
| `StfFileReader.SubTimeFrameFileReader.ReadBlocks` | src/common/SubTimeFrameFileReader.cxx:271-344 | The read loop ends for every input, and takes exactly as many bytes as are left of the record |
| `StfFileReader.SubTimeFrameFileReader.Build` | src/common/SubTimeFrameFileReader.cxx:60-78 | Files the grouped messages |
| `StfFileReader.SubTimeFrameFileReader.Read` | src/common/SubTimeFrameFileReader.cxx:185-350 | A written record is read as its messages, and the position is then exactly its size further |
| `StfFiles.WriteAll` | src/common/SubTimeFrameFileWriter.cxx:235-305 | Any sequence of writes gives the file of their records, with meta record, index and data |
| `StfFiles.ReadAll` | src/common/SubTimeFrameFileSource.cxx:432-446 | Reading ends for every file, and a file of records is read to its very end, one sub-time-frame per record |
| `StfFiles.ReadIsWritten` | src/common/SubTimeFrameFileReader.cxx:185-350 | What is read of a record is the data that was written: equipment, message order, grouping and payloads |
| `StfFiles.WriteAndRead` | src/common/SubTimeFrameFileReader.cxx:185-350 | Whatever sequence of sub-time-frames is written comes back from the file, one for one: per equipment the same messages in order with the same parts, and the file is read to its very end |
| `TfBuildLedger.ArrivedConserves` | src/TfBuilder/TfBuilderInputUCX.cxx:452-487 | An arrival moves one promised sub-time-frame from the network to the queue |
| `TfBuildLedger.PacingIsSafe` | src/TfBuilder/TfBuilderInput.cxx:151-204 | The assertions of the pacing thread hold, but that of a deletion only if the time frame has not left before; no data is discarded as late |
| `TfBuildLedger.PacedHolds` | src/TfBuilder/TfBuilderInput.cxx:141-208 | Pacing keeps every promised sub-time-frame in exactly one place and all ids in order |
| `TfBuildLedger.WaitingIsPromised` | src/TfBuilder/TfBuilderInput.cxx:253-270 | A waiting time frame with the counted number of sub-time-frames has exactly the promised ones |
| `TfBuildLedger.CompletedHolds` | src/TfBuilder/TfBuilderInput.cxx:253-270 | Completing the smallest waiting time frame keeps the invariant, and its id is above all built ones |
| `TfBuildLedger.BuildingIsSafe` | src/TfBuilder/TfBuilderInput.cxx:141-273 | For every interleaving, time frames leave in strictly ascending order, each once, with exactly the sub-time-frames whose senders promised them, after every sender that the request names was asked as often as it is named |
| `TfBuildLedger.AskedAndLeft` | src/TfBuilder/TfBuilderRpc.cxx:384-452 | At any time, the senders that answered and those still to be asked make up those the request names, and the promises are exactly the answers that said yes |
| `TfBuildLedger.CountedAfterAll` | src/TfBuilder/TfBuilderRpc.cxx:384-459 | Once it is known how many to wait for, every named sender was asked, and it is one for each that said yes |
| `TfBuildLedger.PacedInOnePlace` | src/TfBuilder/TfBuilderInput.cxx:141-273 | Every time frame whose request was seen has left, waits, or was deleted, one of the three, and only those nobody promised anything for are deleted |
| `TfBuildLedger.NobodysMayLeave` | src/TfBuilder/TfBuilderRpc.cxx:454-477 | Whenever nobody promised anything for a waiting time frame, it is complete without data once it is counted, and leaves empty if it is the smallest, before its deletion is queued |
| `TfBuildLedger.StepHolds` | src/TfBuilder/TfBuilderRpc.cxx:267-477 | Every step keeps the invariant: a request, an answer of any sender, the count, the deletion of what nobody promised, an arrival, pacing, completion, merging |
| `TfBuildLedger.RunHolds` | src/TfBuilder/TfBuilderInput.cxx:141-322 | In every run, whatever steps are taken in whatever order, the invariant holds throughout: every promised sub-time-frame is in exactly one place, and all ids are in order |
| `TfBuildProtocol.TfBuilder.BuildTfRequest` | src/TfBuilder/TfBuilderRpc.cxx:267-346 | An accepted request is announced to the pacing thread and queued for asking |
| `TfBuildProtocol.TfBuilder.AskSender` | src/TfBuilder/TfBuilderRpc.cxx:384-452 | Any remaining sender may be asked and all others remain; its answer is recorded, and what it promises is counted and in flight |
| `TfBuildProtocol.TfBuilder.FinishAsking` | src/TfBuilder/TfBuilderRpc.cxx:454-459 | The number to wait for becomes known, zero included, after every sender named was asked; it is the number of promises, and the state stays valid |
| `TfBuildProtocol.TfBuilder.Delete` | src/TfBuilder/TfBuilderRpc.cxx:460-477 | The deletion of what nobody promised anything for is queued after its count is known |
| `TfBuildProtocol.TfBuilder.Receive` | src/TfBuilder/TfBuilderInputUCX.cxx:452-487 | Any transfer in flight may arrive next |
| `TfBuildProtocol.TfBuilder.Pace` | src/TfBuilder/TfBuilderInput.cxx:141-208 | In a valid state data is always filed, and the assertions hold if and only if it is not the deletion of a time frame that has left |
| `TfBuildProtocol.TfBuilder.CompleteSmallest` | src/TfBuilder/TfBuilderInput.cxx:237-273 | The smallest waiting time frame leaves if and only if its number is known and reached |
| `TfBuildProtocol.TfBuilder.MergeNext` | src/TfBuilder/TfBuilderInput.cxx:291-322 | The merger gets exactly what was promised; it has a first sub-time-frame to start from if and only if somebody promised one |
| `TfBuildProtocol.NobodyPromises` | src/TfBuilder/TfBuilderInput.cxx:160-269 | If nobody promises data, an empty time frame is found complete before its deletion is seen, and the assertion there fails |
| `StfOwnership.HandedToOne` | src/StfSender/StfSenderOutput.cxx:288-338 | A sub-time-frame that was taken once is handed to at most one builder, and is then nowhere else |
| `StfOwnership.SomewhereAtRest` | src/StfSender/StfSenderOutput.cxx:173-284 | Once its announcement is done, everything taken is scheduled, in the drop queue, deleted or handed over |
| `StfOwnership.HandedOverOwns` | src/StfSender/StfSenderOutput.cxx:309-337 | Handing over keeps every sub-time-frame in exactly one place |
| `StfOwnership.DroppedForAReason` | src/StfSender/StfSenderOutput.cxx:193-338 | In any run, whatever was deleted or is to be was dropped by a step of its own with a reason: unfit or nobody to announce it to, its id already scheduled, not accepted by the scheduler, a drop request, or an unknown builder |
| `StfOwnership.SentOnRequest` | src/StfSender/StfSenderOutput.cxx:288-338 | In any run, whatever was handed over was scheduled and asked for by that builder, which was known |
| `StfOwnership.AcceptedStays` | src/StfSender/StfSenderOutput.cxx:263-338 | In any run, what the scheduler accepted stays scheduled until it is asked for |
| `StfOwnership.DeletedWithinTaken` | src/StfSender/StfSenderOutput.cxx:358-370 | What is deleted never exceeds what was taken, so the buffer counters do not underflow |
| `StfSenderOutput.SenderOutput.Triage` | src/StfSender/StfSenderOutput.cxx:193-261 | Only announceable data with a free id is scheduled; everything else goes to the drop queue |
| `StfSenderOutput.SenderOutput.Answer` | src/StfSender/StfSenderOutput.cxx:263-282 | What was accepted stays scheduled and nothing is dropped; what was rejected is not scheduled any more and is last in the drop queue, unless it has left already |
| `StfSenderOutput.SenderOutput.SendStfToTfBuilder` | src/StfSender/StfSenderOutput.cxx:288-338 | A request hands over, drops or refuses by its kind, with the matching status |
| `StfSenderOutput.SenderOutput.DropNext` | src/StfSender/StfSenderOutput.cxx:342-373 | One sub-time-frame is deleted and the counters follow |
| `StfSenderOutput.TakeStep` | src/StfSender/StfSenderOutput.cxx:173-373 | Whatever section is executed next is one step of the run, so the laws of runs hold of the output |
| `StfSequencer.Sequencer.Next` | src/StfBuilder/StfBuilderInput.cxx:571-633 | Real output is exactly the input above everything before it; a gap below 87 gets one stand-in per id, a longer one stays open |
| `StfSequencer.OutputAscends` | src/StfBuilder/StfBuilderInput.cxx:589-631 | The ids of the output strictly increase |
| `StfSequencer.OnlyLongGapsStayOpen` | src/StfBuilder/StfBuilderInput.cxx:608-626 | An id that is left out lies in a gap of at least the limit, between real data |

## Left out

- Threads, condition variables, sleeps and notifications: each section under a lock is one atomic step, taken in any order.
- gRPC, Consul, FairMQ, UCX and protobuf mechanics, connection set-up and connection errors: a call has an arbitrary result, a remote read copies bytes, a queue is a sequence.
- RegionAllocator.Allocator.DoAllocate: models one attempt; the blocking loop that repeats it while the allocator runs only waits for releases.
- RegionAllocator.Allocator.MessagesFromPtrs: messages are not empty and lie within one block, as the source asserts; empty messages from counted blocks are left out for the same reason.
- RegionAllocator.Allocator.ReleaseRefCounted: every release looks its block up by address; the shortcut through the previous iterator is left out, because the source tests another variable than it uses there.
- Writing of a pattern into free memory, zeroing, the exact-region variant of cutting a message from a pointer, and the mapping of the segment.
- StfScheduler.Scheduler.AddStfInfo: the number of senders is fixed, and whether the process runs is read once per call; topological announcements bypass this bookkeeping and are not modelled.
- StfScheduler.Scheduler.HighWatermark: which sender's buffer is too full is computed in floating point and is a parameter here.
- StfScheduler.Scheduler.DropNext: drops for a single sender come only from topological announcements and are not modelled.
- BuilderDirectory.Directory.FindTfBuilderForTopoStf: utilizations are whole numbers, since the only weight ever added is one.
- SubTimeFrames.SubTimeFrame.UpdateStf: sizes and split counters are unbounded; only the 32-bit time frame counter is truncated.
- The serialization method and other fixed fields of data headers, the raw-data header checks, and taking the first orbit from raw data while reading files.
- UcxTransfer.Transfer: regions end below 2^64 and are at least 16 MiB smaller than the address space, so that an unsigned gap is never small by accident; equipment without any message is not carried over.
- UcxPlan.JoinedExactlyBridged: with a non-empty buffer at the address of another one, or different regions of one size around one buffer, the order may depend on the sort and the condition is that of AllBeginInside on the order it leaves.
- The thread-local cache of registered regions: a lookup works on the current list, larger regions first.
- IovTransport.DeserializeInto: the parts must match the announced counts; the source reads beyond the vector otherwise.
- DplAdapters.Receive: where the source would read a missing message or repeat forever on a bad split index, the model reports an error.
- The processing header stacked onto the first message, the inspection of outgoing messages and the end-of-stream messages of the processing layer.
- StfFileFormat.RecordSize: the byte layout of data headers is a parameter, since the headers' own definition is not part of this model; upgrading old header versions is left out.
- StfFiles.WriteAndRead: equipment without messages and messages without parts are not written, so the STFs must have none; headers come back with the size of their first part, split index zero and a new stacked header, as the reader makes them.
- Input and output errors, renaming, copying and naming of files, and the text file with information about every block.
- The assertion that the data of an equipment is larger than one header, which fails for a single empty message.
- TfBuildProtocol.TfBuilder.BuildTfRequest: ids are positive and ascending and each promised STF is delivered once; the renaming of topological TFs, the limit on transfers in flight and the memory accounting of built and forwarded TFs are left out.
- TfBuildProtocol.TfBuilder.MergeNext: for a time frame without data the source reads the first element of an empty vector, which is undefined; here the time frame is taken and nothing is merged.
- StfSenderOutput.SenderOutput.SendStfToTfBuilder: what the output backend does with an STF, and its counters, are left out.
- StfSequencer.Sequencer.Next: models only STFs that arrive while data is accepted; others are discarded before.
- The splitting of readout data into spans, the topological STF builder, and CRU emulation.
- Monitoring, logging, option parsing, device states and service discovery.
