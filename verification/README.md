# Readers-writer scheduler: a verified model

The kernel module shares a routing table and a MAC table between processes. Processes reach a
table in two ways. On the **ioctl path** a single worker thread grants one queued writer, waits
for it, counts the queued subscribers, takes a snapshot of the change list, grants the counted
subscribers one after another, and waits for the last of them. On the **poll path** readers
register by polling, read when a write has happened, and are then blacklisted until the group is
registered again. Both paths rest on a singly linked list with in-place deletion and reversal, a
50-slot ring buffer, and a table whose change records point into it.

`RT/*` and `MAC/*` are the same code with different entries, sizes and operation codes. They are
modelled once, over an abstract entry type, and instantiated twice in `Instances.dfy`.

## How the model is built

| layer | files |
|---|---|
| values shared by all layers | `Limits`, `Options`, `Sequences`, `TableSpec`, `TableHistory` |
| ioctl path as a step system, its invariant and theorems | `SchedulerSpec`, `SchedulerTrace`, `SchedulerInvariant`, `SchedulerWriters`, `SchedulerReaders`, `SchedulerWorker`, `SchedulerTheorems`, `SchedulerProgress`, `SchedulerCapacity`, `SchedulerExit`, `SchedulerLateCount`, `SchedulerShortBatch` |
| poll path as a step system, its invariant and theorems | `PollSpec`, `PollAtomicity`, `PollInvariant`, `PollKeeps`, `PollPaths`, `PollTheorems`, `PollTrace`, `PollSnapshots`, `PollWitnesses`, `PollDiscipline` |
| data structures in place | `LinkedList`, `Reversal`, `Queue`, `Table`, `ThreadPool` |
| both paths on those data structures | `Scheduler`, `SchedulerRuns`, `PollReaders`, `PollDevice`, `PollRuns`, `Instances` |

A step system's state holds what the source's threads share and each thread's local variables;
its `hist` component is never read by a step and only records what happened; `SchedulerTrace` and
`PollTrace` prove that it records exactly what the events of a run ask for and return. Theorems are about
every reachable state, with any number of open files and any interleaving. The classes
`Scheduler.Service` and `PollDevice.Device` hold the same state in ring buffers, linked lists,
arrays and fields. Each of their methods is one atomic section of the source and is proved to do
exactly what the corresponding step says, and `Perform` carries that over to whole runs.

What counts as one step: a section under one semaphore whose stores nobody outside of it can tell
apart, or one access to shared data outside of any semaphore. The first section of `rt_read` is not one step:
it stores through the globals that other readers copy from without the semaphore, so its stores
are steps of their own, namely the publication of the zeroed vector, each record, the uncapped
count, and the cap. Five places need a reason. A poll is one step although writers take another
lock, because it looks at the change list once and whatever is written after that look commutes
with the rest (`PollAtomicity`). The copy of a poll reader is one step; where the first read of a
round runs alone, nobody changes vector or count from the end of a reader's first section to its
retirement (`PollSnapshots.VectorStays`), so it does not matter how long the copy takes. The
unlocked cap of the vector count (`RT/rt_fops.c:432-433`) is one step because the count never exceeds
1 on the ioctl path, so it never stores (`VectorLifetime`). The sections that release a vector, and
the worker's snapshot, are one step each because nobody copies beside them (`LastReaderOnce`,
`VectorOnce`, and `FreedUnderNobody` under the discipline; without it, a poll reader that copies
between the stores of the retirement finds the count at 0, as it does afterwards). A table change is
one step because its writer is alone (`MutualExclusion`), or holds the read-write lock.

## Hypotheses

* No signal arrives and no allocation fails, so no wait and no lock is abandoned.
* A file has one ioctl in flight, because the completion lives in its own `kernthread`
  (`RT/rt_fops.c:46-58`). On the poll path the model does not assume this; the discipline does.
* A run uses one of the two paths. The menu of `userspace/dr_test.c` pairs them so, and the two
  kinds of writers take different locks.
* Ordering (`SchedulerSpec.Ordered`): the worker does not count readers while the last reader of
  the previous batch is between its signal (`RT/rt_fops.c:470`) and its decrement
  (`RT/rt_fops.c:472`). The source does not enforce this. `SchedulerExit` proves that the count is
  right if and only if it holds, and that a run gets to where it fails. `SchedulerLateCount` and
  `SchedulerShortBatch` prove what happens then, wherever the worker is when the decrement comes
  and for every number of counted readers: before the next count it does no harm; on a count of
  nobody the service can crash; before the loop the last counted reader misses the update, or with
  one reader the update is dropped or the service hangs; and during the loop the vector is freed
  under a reader, or with one reader the service hangs.
* Nothing is assumed about the length of the queues. The result of `enqueue` is ignored
  (`RT/rt_fops.c:276`, `:439`), so a thread that meets a full queue waits unqueued; this is part of
  the model, and `SchedulerCapacity` proves that a writer is served, and a subscriber is not turned
  away, if and only if the queue had room.
* Discipline of poll readers (`PollSpec.Disciplined`, the runs called `Polite`), assumed only where
  a theorem names it: a file has one operation in flight, reads only after its own poll returned
  POLLIN, and polls for the first time without O_NONBLOCK while nothing is pending and nobody is
  blacklisted. `PollDiscipline` proves exactly what the last two clauses buy.
* The first read of a round runs alone (`PollSpec.Alone`, the runs called `Serial`): a read that
  finds the blacklist empty finds no other read running. The source does not enforce this, and
  without it two first readers of one round disagree. The agreement of the readers and the
  completeness of their delivery assume it. `PollSnapshots` proves for the runs without it when a
  copy is right, and from which states some run makes a copy wrong.

## Where the code and its comments differ

* `RT/rt_fops.c:195-200` tests the dequeued writer for NULL after `:189` dereferenced it. The model
  follows the code (`Crashed`), and `DequeuesSucceed` proves that it does not come to that.
* `RT/rt_fops.c:553-555` warns that copying the head pointer may lose a new reader. Under the guard
  at `:550` it cannot (`NoReaderLost`, `TransferNeedsEmptyList`).
* `RT/rt_fops.c:81` says that the vector is freed by the last reader. If several reads find the
  blacklist empty, each allocates one and publishes it zeroed while the others may be copying
  (`ZeroedRoundIsReachable`, `OverlongCopyIsReachable`), and only the last one is freed.
* `RT/rt_fops.c:141` calls the read-write lock the same as the table's semaphore. They are two
  locks, which is why mixed runs are out.
* `common/Queue.c:44-47` tests for a full queue once more; the test cannot succeed there.

## Model

| member | source | states |
|---|---|---|
| SchedulerTheorems.MutualExclusion | RT/rt_fops.c:172-244 | in every reachable state at most one writer is between its grant and its signal, and no granted reader is beside it |
| SchedulerTheorems.ExitSectionExclusive | RT/rt_fops.c:462-474 | only the holder of the readers' semaphore is inside the exit section |
| SchedulerTheorems.CounterAccounting | RT/rt_fops.c:212-214 | the counter is the readers inside, the counted ones still to be granted, and the one before its decrement; the unsigned decrement never wraps |
| SchedulerTheorems.LastReaderTest | RT/rt_fops.c:463 | the test for 1 succeeds for a reader if and only if the whole batch was granted and nobody else is inside |
| SchedulerTheorems.LastReaderOnce | RT/rt_fops.c:463-472 | after the test succeeded nobody of the batch is inside or to come, and the worker has exactly one signal |
| SchedulerTheorems.DequeuesSucceed | RT/rt_fops.c:159-190 | no dequeue of the worker returns NULL, and the next reader is the next one of the batch it counted, whatever arrived meanwhile |
| SchedulerTheorems.ExactBroadcast | RT/rt_fops.c:212-232 | readers are served in arrival order, and each cycle tells each reader of its batch exactly once of its own writer's request: a created entry, or one added by an update, with the "add" code, and nothing else |
| SchedulerTheorems.StepRefines | RT/rt_fops.c:180-242 | every step leaves the specification alone or is one atomic "write, then broadcast to the batch" |
| SchedulerTheorems.TableIsSequential | RT/rt_fops.c:260-361 | the table is the accepted requests in arrival order, applied one after another up to the last writer that ran; the i-th cycle served the i-th request |
| SchedulerTheorems.RunIsSequential | RT/rt_fops.c:260-361 | after any interleaved run the table is the first k requests that the run's writers made and the queue had room for, applied in the order they were made in, where k counts the table changes of the run |
| SchedulerTheorems.RunBroadcasts | RT/rt_fops.c:212-475 | over any interleaved run the subscribers that found room are served in the order they came in, the i-th cycle serves the i-th request of the run, and each subscriber leaves once, with what that request has to tell and nothing else |
| SchedulerTrace.WritesAreRequests | RT/rt_fops.c:275-279 | the recorded requests are exactly those of the run's writers that found room, in order, with their own operations |
| SchedulerTrace.ArrivedAreJoined | RT/rt_fops.c:438-442 | the recorded arrivals are exactly the subscribers of the run that found room, in order |
| SchedulerTrace.ExitsAreLeft | RT/rt_fops.c:457-474 | what is recorded as taken away is exactly what each subscriber of the run copied and counted when it entered the exit section |
| TableHistory.PurgeForgets | RT/rt_fops.c:321 | a purge forgets every request before it, whatever came before and whatever follows |
| TableHistory.FoldHolds | RT/rt_table.c:59-74 | after any history the table is the entries of the creations and "add" updates since the last purge, newest first |
| SchedulerTheorems.VectorLifetime | RT/rt_fops.c:457-468 | whoever can copy the vector finds it allocated with the cycle's own update; at most one record is ever pending, and none between cycles |
| SchedulerTheorems.ArrivalCaps | RT/rt_fops.c:432-433 | an arriving subscriber leaves at most 20 in the vector count, and in an orderly run changes nothing |
| SchedulerTheorems.VectorStable | RT/rt_fops.c:432-468 | while a granted reader can copy the vector, no step changes or frees it, the cap of an arriving reader included, except that reader's own exit |
| SchedulerTheorems.VectorOnce | RT/rt_fops.c:228-468 | the vector is allocated only when there is none, and freed and nulled only by the last reader |
| SchedulerProgress.NoStuckState | RT/rt_fops.c:182-242 | every reachable state has a step, unless only subscribers without a writer (or threads a full queue turned away) are waiting; no wakeup is lost |
| SchedulerProgress.RunsEnd | RT/rt_fops.c:180-242 | without new requests every run is bounded by a measure of its first state |
| SchedulerProgress.RunsDrain | RT/rt_fops.c:180-242 | such a run, when it cannot go on, has an empty writer queue and an idle worker |
| SchedulerProgress.SomeRunDrains | RT/rt_fops.c:180-242 | such a run exists from every reachable state |
| SchedulerProgress.CountedReadersAreServed | RT/rt_fops.c:212-237 | if nobody joined the readers since the worker counted them, the reader queue is empty when the worker is between cycles again |
| SchedulerCapacity.DroppedIffFull | RT/rt_fops.c:276 | a run turns a thread away if and only if one of its requests meets a full queue |
| SchedulerCapacity.FullQueueStarves | RT/rt_fops.c:276-285 | a thread whose enqueue met a full queue is never granted in any continuation |
| SchedulerCapacity.WriterServedIffRoom | RT/rt_fops.c:275-295 | in every run without new requests that cannot be continued, a writer's request was served if and only if the queue had room for it |
| SchedulerCapacity.SubscriberTurnedAwayIffFull | RT/rt_fops.c:438-446 | a subscriber is turned away if and only if the queue had no room; otherwise it ends up served or queued |
| SchedulerCapacity.FullWriterQueueIsReachable | RT/rt_fops.c:276 | 51 open files reach a state in which a writer meets 50 queued ones |
| SchedulerCapacity.FullReaderQueueIsReachable | RT/rt_fops.c:439 | 51 open files reach a state in which a subscriber meets 50 queued ones |
| SchedulerExit.CountIsRightIffExitSectionFree | RT/rt_fops.c:213 | the worker's store keeps the counter right if and only if no reader is between its signal and its decrement; otherwise the counter ends one short |
| SchedulerExit.EarlyCountIsReachable | RT/rt_fops.c:470-474 | with every other hypothesis kept, a run reaches that state with any number of readers queued, from 0 to 50 |
| SchedulerLateCount.LateAfterCount | RT/rt_fops.c:213 | a count beside a pending decrement leaves a state that differs from an orderly one in nothing but that decrement |
| SchedulerLateCount.LateStep | RT/rt_fops.c:172-485 | every step but the decrement itself, another early count included, keeps it so |
| SchedulerLateCount.HarmlessBeforeCount | RT/rt_fops.c:212-223 | a decrement that comes when the worker has dropped the update, or anywhere else before its next count, does no harm: every run up to that count ends in the state of the orderly run |
| SchedulerLateCount.LateDecrementCrashes | RT/rt_fops.c:217-232 | a decrement that comes between a count of 0 and its test wraps the counter; the worker starts a batch of 2^32 - 1 readers, and can take every queued reader and then dereference NULL |
| SchedulerLateCount.LastReaderMisses | RT/rt_fops.c:217-232 | a decrement that comes before the loop, with more than one reader counted or before the test, costs the last counted reader the update: in every run it is still queued, first, when the cycle ends and the update is gone |
| SchedulerShortBatch.LateCases | RT/rt_fops.c:172-244 | these are all the places where the worker can be when the decrement comes late, and no others |
| SchedulerShortBatch.HangsBeforeLoop | RT/rt_fops.c:217-232 | with one reader counted and the decrement between the test and the loop, the loop is empty and the service hangs while the reader stays queued |
| SchedulerShortBatch.VectorFreedTooSoon | RT/rt_fops.c:463-472 | with the decrement in a batch of two or more, in every run the first last-reader test that succeeds comes exactly one reader too soon, and frees the vector and the change list under that reader |
| SchedulerShortBatch.TestComesTooSoon | RT/rt_fops.c:463-472 | and it does succeed, in every run without new requests that cannot be continued |
| SchedulerShortBatch.LoserTakesNothing | RT/rt_fops.c:457-467 | whoever copies after the vector was freed too soon takes no record, and whoever looks at the count is told 0, until the worker's next snapshot |
| SchedulerShortBatch.ServiceHangs | RT/rt_fops.c:463-472 | with the decrement in a batch of one, in every run the reader has not exited yet or the service hangs, and every run without new requests that cannot be continued hangs |
| SchedulerShortBatch.HungForever | RT/rt_fops.c:232-237 | a hung service stays hung in every continuation: the worker grants nobody and the queued readers stay queued |
| SchedulerShortBatch.EveryOrderIsReachable | RT/rt_fops.c:212-232 | each of these places is reached by an orderly run and one early count, for every number of queued readers from 0 to 50 |
| SchedulerRuns.WriterFindsNoRecords | RT/rt_fops.c:217-223 | a granted writer finds the change list empty, so a purge leaves no record pointing at a freed entry |
| SchedulerRuns.WriterAnnounces | RT/rt_fops.c:290-354 | a granted writer puts its entry in front, empties the table, or leaves it, and the change list then holds what there is to tell of its request and nothing else |
| SchedulerRuns.Step | RT/rt_fops.c:172-485 | each atomic section, run on the real objects, does exactly what the step system says |
| SchedulerRuns.Perform | RT/rt_fops.c:172-485 | the real objects follow every run of the step system without reading a freed entry, freeing twice or leaving a record dangling |
| SchedulerRuns.AllowAccessToReaders | RT/rt_fops.c:151-168 | with arbitrary arrivals before each locked dequeue the loop grants exactly the first n readers counted, in order, and keeps the others queued in order |
| Scheduler.Service.constructor | RT/rt_fops.c:26-37 | the objects start as the initial state of the step system |
| Scheduler.Service.EnqueueWriter | RT/rt_fops.c:275-279 | the writer joins the queue with its own operation, which is recorded, or with a full queue only waits |
| Scheduler.Service.ChangeTable | RT/rt_fops.c:289-354 | the request's change of table and change list, on the lists: a purge, which needs an empty change list, empties the table, and a creation puts the entry and a record with the "add" code in front |
| Scheduler.Service.ApplyWrite | RT/rt_fops.c:289-291 | the granted writer changes the table and is about to signal |
| Scheduler.Service.EnqueueReader | RT/rt_fops.c:438-442 | the subscriber joins the queue, or with a full queue only waits |
| Scheduler.Service.Take | RT/rt_fops.c:457 | the subscriber copies as many records as the count says |
| Scheduler.Service.LastReader | RT/rt_fops.c:465-470 | count, change list and vector are emptied, and the worker is signalled |
| Scheduler.Service.EnterExit | RT/rt_fops.c:462-471 | the last-reader test and its consequences, under the semaphore |
| Scheduler.Service.DequeueWriter | RT/rt_fops.c:186-192 | the worker holds the first queued writer, or crashes on NULL |
| Scheduler.Service.CountReaders | RT/rt_fops.c:212-214 | the counter becomes the length of the reader queue |
| Scheduler.Service.Drop | RT/rt_fops.c:217-223 | with no readers the change list is emptied and the cycle ends |
| Scheduler.Service.Snapshot | RT/rt_fops.c:228 | a fresh vector holds the change list, read through the record pointers |
| Scheduler.Service.StartBatch | RT/rt_fops.c:232 | the counter is read once more, as the bound of the loop |
| Scheduler.Service.TakeReader | RT/rt_fops.c:160-162 | the worker holds the next queued reader, or crashes on NULL |
| PollTheorems.RoundsWereSeen | RT/rt_fops.c:79-87 | in every disciplined run, what a round announces is the change list that some read call found when it opened the round, and its group is the files registered then |
| PollTheorems.EmptiedByLastReader | RT/rt_fops.c:98-105 | in every run, between a pending update and an empty change list the only registered file retired |
| PollTheorems.FreedUnderNobody | RT/rt_fops.c:98-104 | when the vector is freed, no other read call is running |
| PollTheorems.NoFault | RT/rt_fops.c:92-104 | under the discipline no run copies records from a freed vector or frees one twice |
| PollTheorems.VectorAllocated | RT/rt_fops.c:92-104 | under the discipline every running read finds the vector allocated, the one that frees it included |
| PollTrace.FaultIffMisuse | RT/rt_fops.c:92-104 | a run has a fault if and only if one of its steps copies records from a vector that is not allocated or frees one again |
| PollSnapshots.SnapshotAgreement | RT/rt_fops.c:70-122 | when the first read of each round runs alone, all readers of a round hold the first min(20, pending) records as the round's first reader saw them, whatever was written between the reads, and whoever is about to copy finds them in the vector |
| PollSnapshots.VectorStays | RT/rt_fops.c:88-96 | in these runs no step of anybody else changes the vector or its count between a reader's first section and its retirement |
| PollSnapshots.CompleteDelivery | RT/rt_fops.c:78-105 | in these runs each file of a finished round received every update since the previous emptying if and only if nothing was written after the snapshot and at most 20 were pending |
| PollSnapshots.EachReturnsOnce | RT/rt_fops.c:96-121 | in every disciplined run, each file registered when a round began returned exactly once in it |
| PollSnapshots.LastReaderReturnsShare | RT/rt_fops.c:98-102 | in every disciplined run the last reader of a round returns the share's length, whatever it copied |
| PollSnapshots.CopyIsRightIff | RT/rt_fops.c:78-92 | in every disciplined run, a copy is the share of its round if and only if no other reader is between its publication of the zeroed vector and the last record the copy needs, or between its store of a count over 20 and the cap |
| PollSnapshots.CountIsRightIff | RT/rt_fops.c:81-93 | in every disciplined run, the count a reader returns is right if and only if it does not look between another reader's store of a count over 20 and the cap |
| PollSnapshots.MayMisreadIff | RT/rt_fops.c:78-92 | for a reader about to copy, some disciplined run makes its copy wrong if and only if a section under way is yet to expose it, or the blacklist is empty and a registered file that is not reading finds room for a read |
| PollTheorems.UpdatesPartitioned | RT/rt_fops.c:98-145 | in every run each applied update belongs to exactly one round or is pending, in order |
| PollTheorems.PendingIsFrontOfTable | RT/rt_fops.c:125-149 | in every run the table is the applied updates, newest first, and the pending ones are its front |
| PollTrace.TableIsAnnounced | RT/rt_fops.c:125-149 | after every run the table is the entries that the run's writes announced, newest first, and the pending ones are its front |
| PollTrace.ListedIffWaited | RT/rt_fops.c:511-570 | over every run a file is registered or blacklisted at the end if and only if it was at the begin, a poll of it was told to wait, or a read of it ended |
| PollTrace.ResultsAreReturns | RT/rt_fops.c:93-121 | the results of the rounds are exactly what the reads of the run returned, in order: what was copied, and the count as noted, or for the only registered file as it is at the end |
| PollTheorems.StepKeepsReaders | RT/rt_fops.c:550-563 | no step loses a reader, and a blacklisted poll conserves them exactly |
| PollTheorems.NoReaderLost | RT/rt_fops.c:107-116 | over all runs, with no discipline, registered and blacklisted readers together never shrink |
| PollTheorems.TransferNeedsEmptyList | RT/rt_fops.c:550-559 | overwriting the registered list with the blacklist keeps every reader if and only if the registered list is empty |
| PollTheorems.ListsAreSets | RT/rt_fops.c:511-535 | under the discipline the two lists are duplicate-free and disjoint and hold exactly the files that polled |
| PollTheorems.RoundEndsUnlocked | RT/rt_fops.c:98-117 | when a round ends its whole group is blacklisted and nothing is pending |
| PollTheorems.LockedForever | RT/rt_fops.c:536-546 | once a write falls between the end of a round and the next poll of its group, the group's polls block in every continuation |
| PollTheorems.RearmIffNothingPending | RT/rt_fops.c:547-560 | with nobody registered, a blacklisted file can be registered again by some run if and only if nothing is pending, and then its poll registers the whole group |
| PollWitnesses.LockedIsReachable | RT/rt_fops.c:536-546 | disciplined callers and one early write reach the state in which the group is locked out for good |
| PollWitnesses.IncompleteRoundIsReachable | RT/rt_fops.c:78-105 | two disciplined files and a write between their reads finish a round in which neither received all updates |
| PollWitnesses.ZeroedRoundIsReachable | RT/rt_table.c:261-276 | two disciplined first readers finish a round in which one received zeroed records and the other the update |
| PollWitnesses.OverlongCopyIsReachable | RT/rt_fops.c:81-92 | with any number of updates over 20 pending, a disciplined run hands all of them to a reader's copy |
| PollAtomicity.PollIsAtomic | RT/rt_fops.c:511-570 | any writes between a poll's look at the change list and its end leave the state they leave when they come after the whole poll |
| PollDiscipline.LateFirstRead | RT/rt_fops.c:98-117 | in every reachable state with an update pending, a file that polls for the first time is told to read; its undisturbed read deprives somebody if and only if at most one file is registered: with none it locks itself out for good, with one it takes the update away, with more everybody still finds what it needs |
| PollDiscipline.LateFirstPollHarms | RT/rt_fops.c:98-117 | however many are registered, the others can go on with discipline until one is left that has not read, and then the late file's read takes the update away from it |
| PollDiscipline.EarlyWriteLocksOut | RT/rt_fops.c:98-117 | a write before anybody polled, one poll and one read reach the locked state |
| PollDiscipline.FirstPollIsSafeIff | RT/rt_fops.c:79-104 | in every reachable state with nothing pending, after a first poll some disciplined run frees a vector twice or uses a freed one if and only if somebody is blacklisted |
| PollDiscipline.LateFirstPollIsReachable | RT/rt_fops.c:79-104 | one round is enough to get where a first poll is not safe |
| PollRuns.Step | RT/rt_fops.c:70-571 | each atomic section, run on the real objects, does exactly what the step system says; the handlers of one assignment are stated here |
| PollRuns.Perform | RT/rt_fops.c:70-571 | whatever the callers do, the real objects follow every run; no change record dangles and no node is lost |
| PollDevice.Device.constructor | RT/rt_fops.c:29-37 | the objects start as the initial state of the step system |
| PollDevice.Device.Publish | RT/rt_table.c:259-262 | a fresh zeroed vector with room for every pending record replaces the old one, which is not freed |
| PollDevice.Device.BeginRead | RT/rt_fops.c:78-81 | a read that finds the blacklist empty publishes the zeroed vector and holds the semaphore; the others find the blacklist non-empty |
| PollDevice.Device.FillRecord | RT/rt_table.c:270-276 | the next record, read through its pointer, is stored in place in the published vector |
| PollDevice.Device.StoreCount | RT/rt_fops.c:81 | the count is stored uncapped |
| PollDevice.Device.CapCount | RT/rt_fops.c:84-88 | the count is capped at 20 and the section ends |
| PollDevice.Device.CopyRecords | RT/rt_fops.c:92 | the reader copies as many records as the count says; copying records from a vector that is not live is recorded as a fault |
| PollDevice.Device.EmptyIfLast | RT/rt_fops.c:98-105 | with one registered file the change list and the count are emptied and the vector is freed, again if it was freed before, and not nulled |
| PollDevice.Device.Unregister | RT/rt_fops.c:107-114 | the file's first node leaves the registered list, if there is one |
| PollDevice.Device.Retire | RT/rt_fops.c:107-117 | the file moves to the blacklist, registered or not |
| PollDevice.Device.EndRead | RT/rt_fops.c:96-121 | the whole retirement under the semaphore, and the value returned |
| PollDevice.Device.Register | RT/rt_table.c:45-57 | a file is pushed on the registered list unless it is there |
| PollDevice.Device.Rearm | RT/rt_fops.c:556-559 | the head-pointer transfer moves the blacklist, node by node unchanged, over the registered list |
| PollDevice.Device.PollFresh | RT/rt_fops.c:512-534 | POLLIN when an update is pending; otherwise EAGAIN or registration |
| PollDevice.Device.PollBlacklisted | RT/rt_fops.c:536-569 | a blacklisted file waits, and registers the group when nothing is pending and nobody is registered |
| PollDevice.Device.Poll | RT/rt_fops.c:493-571 | the whole of a poll: POLLIN exactly to a file that is not blacklisted while an update is pending, EAGAIN only without blocking, and whoever waits is on one of the lists |
| PollDevice.Device.Write | RT/rt_fops.c:139-144 | a write changes table and change list and no reader list |
| PollReaders.Push | common/LinkedListApi.c:108-116 | a push on one reader list leaves the other list, on the same heap, untouched |
| PollReaders.Remove | common/LinkedListApi.c:60-75 | a deletion by value on one reader list leaves the other list untouched |
| PollReaders.Transfer | RT/rt_fops.c:556-559 | two lists stay well-formed and apart when one takes over the other's head |
| Table.Table.AddEntryByVal | RT/rt_table.c:59-74 | an entry and a record that points at it are pushed; the change list stays an aliased prefix of the table |
| Table.Table.ApplyUpdates | RT/rt_table.c:220-239 | only the "add" code changes the table |
| Table.Table.Purge | RT/rt_table.c:174-185 | the table is freed; the change list still points only at live entries if and only if it was empty |
| Table.Table.EmptyChangeList | RT/rt_table.c:241-247 | the records are freed and the table is untouched |
| Table.Table.NewVector | RT/rt_table.c:257-262 | a fresh vector with one zeroed element for each record |
| Table.Table.NextRecord | RT/rt_table.c:271-275 | one record is read through its pointer, and the walk steps to the next node |
| Table.Table.GetUpdatedEntries | RT/rt_table.c:249-279 | run undisturbed, the whole of it leaves a fresh vector that holds, record by record, the code and the entry read through the pointer |
| Table.Table.IsUpdated | RT/rt_table.c:201-218 | true if and only if a change is pending |
| Table.NoneReadable | RT/rt_table.c:174-185 | after the table's payloads were freed every record dangles |
| LinkedList.List.AddNode | common/LinkedListApi.c:92-106 | the node becomes the first one and its old link is overwritten; NULL is refused; on an empty list the link is left alone, so it has to be NULL |
| LinkedList.List.AddNodeByVal | common/LinkedListApi.c:108-116 | a fresh node with a fresh copy becomes the first one |
| LinkedList.List.IsValuePresent | common/LinkedListApi.c:322-335 | the first node that holds the value, or NULL if and only if there is none |
| LinkedList.List.DeleteNode | common/LinkedListApi.c:18-58 | in all three cases the values lose exactly the node's position, and one node and that value's payload are freed |
| LinkedList.List.DeleteBySuccessor | common/LinkedListApi.c:26-35 | the node takes over its successor's payload and link, and the successor is freed |
| LinkedList.List.DeleteLast | common/LinkedListApi.c:37-57 | the scan for the predecessor ends, and the last node is unlinked and freed |
| LinkedList.List.DeleteNodeByValue | common/LinkedListApi.c:60-75 | exactly the first match is deleted; 1 if there was one, else 0 |
| LinkedList.List.DeleteAll | common/LinkedListApi.c:295-320 | every node and payload is freed exactly once, none is read after it was freed, and the list ends empty |
| LinkedList.List.RemoveNode | common/LinkedListApi.c:118-152 | a member is unlinked and not freed; any other node is reported, unless the list is empty |
| LinkedList.StaleSizes | common/LinkedListApi.c:26-35 | after a deletion by copying, the recorded sizes are those of the remaining values if and only if the two neighbours' sizes agree |
| Reversal.ReverseByWalking | common/LinkedListApi.c:212-232 | same nodes and payloads in exactly reversed order, same count, nothing else written |
| Reversal.ReverseBySuccessor | common/LinkedListApi.c:244-264 | the same result by recursion over the successors |
| Reversal.ReverseByPrevious | common/LinkedListApi.c:276-293 | the same result by recursion with the previous node handed down |
| Reversal.ReverseAndBack | common/LinkedListApi.c:212-293 | walking and then either recursion gives the list back, node by node |
| Reversal.TurnSuccessors | common/LinkedListApi.c:234-240 | the recursion turns every link after a node and leaves that node's own link |
| Reversal.TurnToPrevious | common/LinkedListApi.c:267-274 | the recursion turns every link from a node on |
| Reversal.ReversedChain | common/LinkedListApi.c:212-293 | a chain whose links all point back is the reversed chain, well-formed again |
| Queue.Queue.constructor | common/Queue.c:4-10 | a new queue is empty and both indices stand at 49 |
| Queue.Queue.Enqueue | common/Queue.c:28-60 | appends unless NULL or full; the occupied slots stay one window below the front |
| Queue.Queue.Deque | common/Queue.c:62-84 | returns the oldest element, NULL if and only if the queue is empty; the last one leaves the indices alone |
| Queue.FirstInFirstOut | common/Queue.c:28-84 | over every history what went in is what came out followed by what is there, and at most 50 are there |
| Queue.Perform | common/Queue.c:4-84 | every history of calls on the ring buffer agrees with the bounded FIFO |
| ThreadPool.Pool.IsThreadIn | userspace/threadApi.c:30-41 | the lowest slot that holds the id, or -1 |
| ThreadPool.Pool.GetEmptySlot | userspace/threadApi.c:70-78 | the highest free slot, or -1 |
| ThreadPool.Pool.PoolAdd | userspace/threadApi.c:127-142 | an absent thread goes to the highest free slot, unless its id is out of range or no slot is free |
| ThreadPool.Pool.RemoveThread | userspace/threadApi.c:95-111 | the thread's slot is freed and returned, or -1 |
| ThreadPool.AddThread | userspace/threadApi.c:144-163 | as PoolAdd, after the tests for a missing pool and a duplicate |
| ThreadPool.HistoryTidy | userspace/threadApi.c:95-163 | over every history the ids in the pool are distinct and below the pool size |
| ThreadPool.AbsentFindsSlot | userspace/threadApi.c:127-142 | pigeonhole: an absent id in range always finds a free slot |
| ThreadPool.FullIffNoSlots | userspace/threadApi.c:138-141 | after every history the "full" branch is reached if and only if the pool size is 0, and adding succeeds if and only if the id is absent and in range |
| ThreadPool.AddTakesHighest | userspace/threadApi.c:70-142 | a thread that is added goes to the highest free slot, that slot is returned, and nothing else changes |
| ThreadPool.AddAnswers | userspace/threadApi.c:127-163 | which of duplicate, out of range, full and added an addition is, in terms of the slots; every other answer leaves the pool alone and returns -1 |
| ThreadPool.RemoveUndoesAdd | userspace/threadApi.c:95-163 | removing what was just added restores every slot |
| ThreadPool.RemoveFrees | userspace/threadApi.c:95-111 | removing any thread of the pool frees its slot and only that, and returns it |
| ThreadPool.RemoveAbsent | userspace/threadApi.c:95-111 | a thread that is absent or out of range leaves the pool alone and yields -1 |
| ThreadPool.Perform | userspace/threadApi.c:60-163 | every history of calls on the array agrees with the specification |
| Instances.ForeignCodesIgnored | cmdcodes.h:1-11 | dropping all requests with update, delete, unknown or the other device's codes leaves the same table |
| Instances.RunIoctl | RT/rt_fops.c:172-485 | from interleaved threads down to the lists: the table in the heap is the effective requests of the run in arrival order, that is the entries brought in since the last purge, newest first, and the change list an aliased prefix with at most one record |
| Instances.RunRoutingTable | RT/rt_fops.c:172-485 | the same for the routing table and its codes |
| Instances.RunMacTable | MAC/mac_fops.c:174-483 | the same for the MAC table and its codes |
| Instances.RunPoll | RT/rt_fops.c:70-571 | after any run the table in the heap is what the run's writes announced, newest first, the change list is an aliased prefix that holds the pending ones, and the node lists hold the registered and the blacklisted files; under the discipline no vector was misused |
| Instances.PollRoutingTable | RT/rt_fops.c:70-571 | the same for the routing table |
| Instances.PollMacTable | MAC/mac_fops.c:71-570 | the same for the MAC table |

## Left out

- Scheduler.Service.Take: hands the vector over by record; the source sizes the copy by the entry struct while the vector holds update structs (`RT/rt_fops.c:457`), so byte-for-byte delivery is not claimed.
- PollDevice.Device.CopyRecords: the same abstraction (`RT/rt_fops.c:92`); and what is read from a vector after it was freed is its stale contents, marked as a fault, since the source's value is undefined.
- PollRuns.Perform: says nothing about the vectors that several first readers of a round each allocate; the source loses all but the last one.
- PollSnapshots.CopyIsRightIff: a copy happens at one instant. A copy that lasts over several steps of another reader's first section mixes what it would find at each of them. And a record is stored at once, while the source stores its code and its entry one after the other.
- PollDevice.Device.Valid: the reader lists and the two table lists draw on separate parts of the heap, so a node is known to belong to one part from its allocation on.
- LinkedList.List.AddNode: a node pushed on an empty list must have a NULL link; the source would make what it links to part of the list.
- LinkedList.List.DeleteNode: takes the position of a member node as a ghost argument; a node that is no member makes the source's scan run off the list.
- Queue.Queue.Enqueue: the queue's semaphore is the atomicity of the step that calls it.
- Mixed runs of ioctl and poll writers on one table: they do not exclude each other in the source.
- Signals, `-ERESTARTSYS`, failed allocations, and closing a file while it is listed or queued.
- User-memory access (`access_ok`, `copy_from_user`, `put_user`) and the early returns for invalid pointers.
- `busy_mode`, `printk`, module registration, `open`/`release`, device numbers, and the menu program.
- The info ioctl, the empty ioctl cases, `lookup_*`, `delete_*_table_entry`, `add_*_by_ref`, `copy_*_to_user_space`: unused, stubs or easy.
- `singly_ll_remove_node_by_value` and `singly_ll_get_node_by_data_ptr`: the same scans as the members above.
- `poll_wait` and `wake_up`: a blocked poll is a poll that returned no mask and may be called again.
- The pthread wrappers, the `*_mutex` variants of the pool functions, and `dump_*`.
