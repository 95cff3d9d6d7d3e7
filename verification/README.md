# Verified models of the PXC core utilities

This project models, in Dafny, the algorithms of `pxcutils/pxc/utils` that are hardest to get
right, and proves what they promise. `dafny verify dfyconfig.toml` checks all of it.

## What is modelled

- **ChainScheduler** (`ChainScheduler.dfy`, `ChainLemmas.dfy`, `ChainSteps.dfy`): the optimistic
  scheduler as a class whose methods update the source's fields. A task may start once, in each of
  its chains, its predecessor is of the chain's current generation; a failure raises the generation;
  a chain has at most ten active tasks. Task ids are parameters, as the container's ids are fresh.
- **Concurrent protocols** as state machines, with one step per atomic operation or locked region,
  any number of threads and sequentially consistent interleaving. Each has one inductive invariant,
  kept by every step, and theorems about every state of every run.
  - Epoch-based reclamation (`EpochReclamation.dfy`; `EpochProgress.dfy`: when what is retired is
    destroyed, and that `retire_sync` ends).
  - The sleepy waiter (`SleepyWaiter.dfy`; `SleepyProgress.dfy`: whom `notify` wakes, and that nobody
    is stuck).
  - The stealing queue (`StealingQueue.dfy`; `StealingMoves.dfy`: what each operation does with the
    contents).
  - The concurrent hash map with cooperative migration (`ConcurrentHashMap.dfy`;
    `ConcurrentInsert.dfy`: whose value the calls answer; `ConcurrentFind.dfy`: what `find` answers for
    an absent key; `ConcurrentCalls.dfy`: when a call migrates, and that it returns).
  - Hazard pointers (`HazardPointers.dfy`), the queues for many and for single producers
    (`MpmcQueue.dfy`, `SpscQueue.dfy`), the sleeping reader of PollQueue (`PollQueue.dfy`), the object
    pool (`ObjectPool.dfy`) and the chained buffers (`ChainBuffer.dfy`).
  - `QueueCalls.dfy` states the histories of the queues and buffers in terms of the calls made.
- **FlatHashTable** (`FlatHashModel.dfy`, `FlatHashTable.dfy`): linear probing over an array with
  backward-shift deletion across the end, rehashing and `remove_if`, against a finite map.
- **FlatHashTableChunks** (`TriangularProbe.dfy`, `FlatHashChunks.dfy`, `FlatHashTableChunks.dfy`,
  `FlatHashEndless.dfy`): the table of 14-slot chunks with triangular probing and `skipped_cnt`
  counters, against a finite map.
- **CRC-32C combination** (`Crc32c.dfy`): the table of matrices over GF(2) against the bit-at-a-time
  CRC of section 12.1 of RFC 3720.
- **Heap and MultiTimeout** (`Heap.dfy`, `MultiTimeout.dfy`): the 4-ary heap with back-pointers, and
  the timeouts per key on top of it.
- **FloodControlStrict** (`FloodControlStrict.dfy`): the sliding-window limiter, with reals for doubles.
- **uint128** (`Uint128.dfy`): emulated 128-bit arithmetic against arithmetic modulo 2^128.
- **pq factorization** (`PqFactorize.dfy`, `PqCycle.dfy`): binary gcd, multiplication by doubling and the
  search for a factor, with the 64-bit bounds; which comparison ends the search, and why it finds
  small divisors.
- **AES-IGE** (`AesIge.dfy`): the batched form built on CBC against the plain recurrence, over any
  permutation of blocks in place of the cipher, also in place.
- **find_boundary** (`FindBoundary.dfy`): the resumable search over readers with arbitrary node cuts.
- **UTF-8 and JSON** (`Utf8.dfy`, `JsonString.dfy`, `JsonSpelling.dfy`, `JsonValue.dfy`, `JsonGrammar.dfy`,
  `JsonRoundTrip.dfy`, `JsonBuilder.dfy`, `JsonSlices.dfy`, `JsonParser.dfy`): checking, reading and writing
  UTF-8; the printer as a class that appends; the parser as a class that decodes strings into its own
  buffer and returns slices of it; the round trip between them; and a grammar, apart from the parser,
  of the documents it accepts.
- **DecTree** (`DecTree.dfy`): the treap, as functions on trees.

## Findings

- `ConcurrentHashMap::find(key, value)` does not always answer `value` for a key that nothing is bound
  to (ConcurrentHashTable.h:164-180). It can answer one of two other values, and `FindAnswersExactly`
  says when.
  - `ValueT{}`, exactly if it reads the key's slot after an insert has claimed it and before it is
    filled. In `FindCanAnswerEmpty` an insert of key 2 has claimed its slot, and `find(2, 5)` answers
    `ValueT{}`.
  - `migrate_value()`, exactly if one of its attempts read a sealed slot and the last one ends without
    a slot of the key, at an empty slot or at the limit of the probe: the loop reuses the parameter
    `value`. `FindCanAnswerTheSeal` gives a run with `find(2, 5)`.

  What a caller can rely on is `FindDefault`: if no insert of the key has begun before the find returns,
  it answers `value`. Once one may have begun, another answer is possible (`StraysExactlyWithInsert`).
- `FlatHashTableChunks::find`, `emplace` and `erase` stop for an absent key only at a chunk with
  `skipped_cnt == 0` (FlatHashMapChunks.h:265-281). They never return exactly if the key is absent, the
  table holds entries and every counter is positive. `FindNeverEnds` is such a search: two chunks with
  19 entries of at most 24, after 15 emplaces at home in chunk 0, 10 erases of these and 14 emplaces at
  home in chunk 1. A counter at its limit aborts only with at least 65535 entries.
- `PollQueue::writer_flush` can lose a wake-up after a flush with nothing to flush: that flush spends the
  one signal of the present wait state (queue.h:340-355). `EmptyFlushLoses` is such a run, and
  `LostExactlyWithEmptyFlush` shows that it takes an empty flush. Lost means that the reader sleeps over
  items, is not signalled, and the writer has nothing left to flush.
- A `writer_put` of PollQueue on a full block flushes that block and wakes nobody (queue.h:193-210,
  293-299): the flush it calls is the chain's own. So a reader can sleep over whole blocks until the next
  `writer_flush`. `FullBlockIsUnsignalled` is such a run with 1025 puts; without empty flushes
  `UnsignalledMeansBlocks` shows that then something is still to be flushed, and `NextFlushWakes` that
  this flush wakes the reader.
- `DecTree::insert` of a present key leaves the tree as it is only if the key's node has a priority that
  is not below the new random one; otherwise the key is there twice, as in `InsertedTwice`
  (DecTree.h:46-67). As the priority is drawn inside, a caller can rely on insert only for an absent key,
  or one whose node has the highest priority there is (`InsertAlwaysKeepsOrder`).
- JSON values nested deeper than 100 print, and their printed form is refused, as in `NestedRefused`
  (JsonBuilder.h:801-812).

## Model

| member | source | states |
|---|---|---|
| ChainLemmas.CurrentPrefix | pxcutils/pxc/utils/ChainScheduler.h:162-190 | tasks of the chain's current generation form a prefix of the chain and are all active |
| ChainLemmas.CandidateUnique | pxcutils/pxc/utils/ChainScheduler.h:156-178 | a chain has at most one waiting task whose predecessor is current, so one limited_tasks_ slot per chain is enough |
| ChainLemmas.StartInOK | pxcutils/pxc/utils/ChainScheduler.h:180-190 | starting a task keeps a chain's invariant: generations non-increasing, active_tasks counted exactly and at most ten |
| ChainLemmas.FailInOK | pxcutils/pxc/utils/ChainScheduler.h:203-217 | a failure, which raises the generation, keeps it |
| ChainLemmas.FinishInOK | pxcutils/pxc/utils/ChainScheduler.h:319-335 | removing a finished task keeps it |
| ChainLemmas.AppendOK | pxcutils/pxc/utils/ChainScheduler.h:264-287 | appending a new task keeps it |
| ChainSteps.StartOneInv | pxcutils/pxc/utils/ChainScheduler.h:180-190 | a start keeps the whole invariant, the tasks right behind it being owed a try |
| ChainSteps.RecordLimited | pxcutils/pxc/utils/ChainScheduler.h:156-178 | recording the waiter of a full chain never drops another waiter |
| ChainSteps.WaitForParent | pxcutils/pxc/utils/ChainScheduler.h:156-178 | a task whose predecessor is not current needs no record |
| ChainSteps.FailedInv | pxcutils/pxc/utils/ChainScheduler.h:203-235 | inactivating a failed task keeps the invariant in every chain |
| ChainSteps.FinishedInv | pxcutils/pxc/utils/ChainScheduler.h:319-335 | finishing a task keeps it, including the chains that disappear |
| ChainSteps.CreatedInv | pxcutils/pxc/utils/ChainScheduler.h:264-287 | creating a task keeps it |
| ChainRuns.NothingStartable | pxcutils/pxc/utils/ChainScheduler.h:156-258 | after every public call each pending task has a chain in which its predecessor is not current or ten tasks are active |
| ChainRuns.Progress | pxcutils/pxc/utils/ChainScheduler.h:156-258 | while tasks exist and none is paused, at least one is active |
| ChainRuns.FinishedReady | pxcutils/pxc/utils/ChainScheduler.h:319-335 | after finish only the tasks queued for a try may be startable |
| ChainRuns.CreatedReady | pxcutils/pxc/utils/ChainScheduler.h:264-287 | after create only the new task may be startable |
| ChainRuns.ParentsAre | pxcutils/pxc/utils/ChainScheduler.h:309-315 | the collected parents are the predecessors of the task: one for each chain in which another present task was created before it, the last of these |
| ChainRuns.StartedIsCurrent | pxcutils/pxc/utils/ChainScheduler.h:180-190 | a started task is of the current generation in each of its chains, and nobody else's currency changes |
| ChainRuns.FailureStales | pxcutils/pxc/utils/ChainScheduler.h:203-217 | a failure makes all tasks of a chain stale if the failed task was current there, and otherwise none |
| ChainRuns.CreatedNotCurrent | pxcutils/pxc/utils/ChainScheduler.h:264-287 | a creation changes nobody's currency, and the new task has none |
| ChainRuns.FinishedKeepsCurrent | pxcutils/pxc/utils/ChainScheduler.h:319-335 | a finish takes nobody else's currency |
| ChainRuns.RunQueues | pxcutils/pxc/utils/ChainScheduler.h:180-190 | started tasks are queued in the order of their starts |
| ChainScheduler.Scheduler.TryStartTask | pxcutils/pxc/utils/ChainScheduler.h:156-178 | the new state is that of a legal run of starts and records from the old one |
| ChainScheduler.Scheduler.DoStartTask | pxcutils/pxc/utils/ChainScheduler.h:180-190 | the same, beginning with the start of this task |
| ChainScheduler.Scheduler.InactivateTask | pxcutils/pxc/utils/ChainScheduler.h:203-235 | the task and its active counts change as the specification says, with a new generation if it failed |
| ChainScheduler.Scheduler.FlushTryStart | pxcutils/pxc/utils/ChainScheduler.h:252-258 | a legal run that empties the queue of owed tries |
| ChainScheduler.Scheduler.CreateTask | pxcutils/pxc/utils/ChainScheduler.h:264-287 | the state is the created one followed by a legal run, and nothing is owed; the task has the chains it was given |
| ChainScheduler.Scheduler.StartNextTask | pxcutils/pxc/utils/ChainScheduler.h:299-317 | hands out the longest waiting started task with, for each of its chains in which it is not the first and in their order, the present task created last before it; changes nothing else |
| ChainScheduler.Scheduler.FinishTask | pxcutils/pxc/utils/ChainScheduler.h:319-335 | the state is the one without the task followed by a legal run |
| ChainScheduler.Scheduler.ResetTask | pxcutils/pxc/utils/ChainScheduler.h:337-345 | the failed state followed by a legal run that tries the task again |
| ChainScheduler.Scheduler.PauseTask | pxcutils/pxc/utils/ChainScheduler.h:347-354 | the failed state with the task paused, followed by a legal run |
| EpochReclamation.ThreeBagsSuffice | pxcutils/pxc/utils/EpochBasedMemoryReclamation.h:95-119 | a bag about to be emptied holds nothing that a section can still reach |
| EpochReclamation.RotateInv | pxcutils/pxc/utils/EpochBasedMemoryReclamation.h:106-119 | destroying the oldest bag keeps the invariant |
| EpochReclamation.RaiseInv | pxcutils/pxc/utils/EpochBasedMemoryReclamation.h:158-173 | raising the global epoch after every thread was seen idle or current keeps it |
| EpochReclamation.RetireInv | pxcutils/pxc/utils/EpochBasedMemoryReclamation.h:188-198 | retiring an unlinked object keeps it |
| EpochReclamation.StepInv | pxcutils/pxc/utils/EpochBasedMemoryReclamation.h:94-198 | every step of every thread keeps it |
| EpochReclamation.NoUseAfterFree | pxcutils/pxc/utils/EpochBasedMemoryReclamation.h:94-198 | in every state of every run no object that a section can reach has been destroyed |
| EpochProgress.ThirdChangeDestroys | pxcutils/pxc/utils/EpochBasedMemoryReclamation.h:106-119 | a retired object is destroyed exactly when the epoch that its thread announces has changed three times, counting from the rotation |
| EpochProgress.NothingUndeleted | pxcutils/pxc/utils/EpochBasedMemoryReclamation.h:106-119 | when a thread has no undeleted objects, everything it retired is destroyed |
| EpochProgress.RetireSyncEnds | pxcutils/pxc/utils/EpochBasedMemoryReclamation.h:175-193 | if all other threads are idle, one turn of retire_sync takes at most 4n + 20 steps for n threads and destroys everything the thread retired |
| EpochProgress.SkipsRise | pxcutils/pxc/utils/EpochBasedMemoryReclamation.h:139-151 | a lock goes on to a check, or lowers the count of locks without one |
| EpochProgress.SkipsAtMost30 | pxcutils/pxc/utils/EpochBasedMemoryReclamation.h:139-151 | that count is at most 30, so of 31 calls of lock one checks |
| SleepyWaiter.ChecksNeverFail | pxcutils/pxc/utils/MpmcWaiter.h:205-308 | in every state of every run the checks on the packed counters hold |
| SleepyWaiter.CountsMean | pxcutils/pxc/utils/MpmcWaiter.h:205-308 | with the mutex free, parked_count is the number of sleepers, and searching_count is the number of workers that are looking or about to stop, or are parked and taken off the sleepers |
| SleepyWaiter.StepInv | pxcutils/pxc/utils/MpmcWaiter.h:205-308 | every step keeps the invariant |
| SleepyWaiter.NoLostWakeUp | pxcutils/pxc/utils/MpmcWaiter.h:205-308 | while an item is published and a worker sleeps, some thread's place in its code means that it will look for it or wake a worker; when all sleep no item is left |
| SleepyProgress.FirstLoadChecks | pxcutils/pxc/utils/MpmcWaiter.h:280-287 | notify gives up before the mutex exactly if a worker searches or none is parked |
| SleepyProgress.NotifyTakes | pxcutils/pxc/utils/MpmcWaiter.h:289-308 | with the mutex it takes a sleeper off exactly if no worker searches and one sleeps |
| SleepyProgress.NotifyTakesLatest | pxcutils/pxc/utils/MpmcWaiter.h:303-307 | whom it takes off parked after all other sleepers |
| SleepyProgress.WorkIsLeft | pxcutils/pxc/utils/MpmcWaiter.h:205-308 | the work that is left is what was published and not found by a search pass |
| SleepyProgress.NobodyStuck | pxcutils/pxc/utils/MpmcWaiter.h:205-308 | each thread can go on, or waits for a mutex whose holder can, or is parked among the sleepers or about to be unparked |
| StealingQueue.Distinct | pxcutils/pxc/utils/StealingQueue.h:25-104 | positions less than a ring apart use different slots |
| StealingQueue.PopValue | pxcutils/pxc/utils/StealingQueue.h:57-67 | local_pop returns the oldest value of the queue if its exchange succeeds, and else changes nothing |
| StealingQueue.PopBalance | pxcutils/pxc/utils/StealingQueue.h:57-67 | local_pop keeps the count of every value |
| StealingQueue.MoveBatch | pxcutils/pxc/utils/StealingQueue.h:69-104 | a successful steal moves its batch without changing any count |
| StealingQueue.StepInv | pxcutils/pxc/utils/StealingQueue.h:25-104 | every step keeps the invariant |
| StealingQueue.EveryValueOnce | pxcutils/pxc/utils/StealingQueue.h:25-104 | each inserted value is in exactly one queue, batch, return or overflow, and no ring exceeds its capacity |
| StealingCalls.PushedIsSomewhere | pxcutils/pxc/utils/StealingQueue.h:25-104 | every value was pushed as often as it is held, was returned or overflowed |
| StealingMoves.PushChecks | pxcutils/pxc/utils/StealingQueue.h:25-36 | local_push has room exactly if the queue holds fewer values than its capacity |
| StealingMoves.PushAppends | pxcutils/pxc/utils/StealingQueue.h:32-36 | with room the value goes to the end of the queue |
| StealingMoves.PushTakesHalf | pxcutils/pxc/utils/StealingQueue.h:37-43 | a full queue loses its oldest values, half of the capacity and one more |
| StealingMoves.PushSpills | pxcutils/pxc/utils/StealingQueue.h:45-51 | these go to the overflow one by one in their order, and then the new value |
| StealingMoves.PopChecks | pxcutils/pxc/utils/StealingQueue.h:57-63 | local_pop finds nothing exactly if the queue is empty |
| StealingMoves.PopTakesOldest | pxcutils/pxc/utils/StealingQueue.h:65-67 | it takes and returns the oldest value, or nothing if the head has moved |
| StealingMoves.StealSizes | pxcutils/pxc/utils/StealingQueue.h:70-88 | a batch is the larger half of what the loaded positions say, or all that fits; with neither the steal gives up |
| StealingMoves.StealTakesOldest | pxcutils/pxc/utils/StealingQueue.h:90-97 | a won steal takes exactly its batch off the front of the other queue |
| StealingMoves.StealPublishes | pxcutils/pxc/utils/StealingQueue.h:99-102 | all but the youngest of the batch go to the end of the own queue in their order, and that one is returned |
| StealingMoves.OtherStepsMoveNothing | pxcutils/pxc/utils/StealingQueue.h:25-104 | no other step changes what a queue holds or returns a value |
| ConcurrentHashMap.OneSlotPerKey | pxcutils/pxc/utils/ConcurrentHashTable.h:57-90 | a key has at most one slot in a table |
| ConcurrentHashMap.ProbeFinds | pxcutils/pxc/utils/ConcurrentHashTable.h:57-90 | a probe meets the slot of a present key before an empty slot and within its limit |
| ConcurrentHashMap.FillIsFirst | pxcutils/pxc/utils/ConcurrentHashTable.h:129-162 | where an empty value can still be filled the key is bound nowhere |
| ConcurrentHashMap.StartMigration | pxcutils/pxc/utils/ConcurrentHashTable.h:274-287 | starting a migration keeps the invariant |
| ConcurrentHashMap.SealInv | pxcutils/pxc/utils/ConcurrentHashTable.h:289-315 | sealing a slot keeps it |
| ConcurrentHashMap.MoveStoreInv | pxcutils/pxc/utils/ConcurrentHashTable.h:306-315 | storing a moved entry keeps it |
| ConcurrentHashMap.AllMoved | pxcutils/pxc/utils/ConcurrentHashTable.h:242-272 | when the last thread leaves, every old slot is sealed and every binding is in the new table |
| ConcurrentHashMap.StepInv | pxcutils/pxc/utils/ConcurrentHashTable.h:57-315 | every step keeps the invariant |
| ConcurrentHashMap.AccessesInRange | pxcutils/pxc/utils/ConcurrentHashTable.h:57-315 | no step of a run touches a table or slot that does not exist |
| ConcurrentHashMap.LaterCallsKnow | pxcutils/pxc/utils/ConcurrentHashTable.h:129-180 | calls that begin after a key is bound work with that binding |
| ConcurrentHashMap.InsertedValueStays | pxcutils/pxc/utils/ConcurrentHashTable.h:129-180 | once insert(k) has returned w, every later insert or find of k that returns, returns w, across any migrations |
| ConcurrentHashMap.MigrationChecks | pxcutils/pxc/utils/ConcurrentHashTable.h:242-281 | the checks of do_migrate and init_migrate hold whenever they are reached |
| ConcurrentHashMap.NobodyWaitsInVain | pxcutils/pxc/utils/ConcurrentHashTable.h:242-272 | while a thread waits for the generation to change, some thread still works on the migration |
| ConcurrentInsert.BindingCallAnswers | pxcutils/pxc/utils/ConcurrentHashTable.h:129-162 | the call whose step binds a key is an insert of it that returns its own argument, the binding |
| ConcurrentInsert.InsertAnswersInserted | pxcutils/pxc/utils/ConcurrentHashTable.h:129-162 | what an insert of k answers, some insert of k has put in as its own argument and answered, no later |
| ConcurrentInsert.FindAnswersInserted | pxcutils/pxc/utils/ConcurrentHashTable.h:164-180 | so is what a find of k answers, besides its default and the two special values |
| ConcurrentInsert.OnlyValue | pxcutils/pxc/utils/ConcurrentHashTable.h:129-162 | if only one value was ever offered for a key, its inserts answer that value |
| ConcurrentInsert.OneWinner | pxcutils/pxc/utils/ConcurrentHashTable.h:129-162 | inserts of a key that answer something nonempty answer the same, in whatever order |
| ConcurrentCalls.TablesDouble | pxcutils/pxc/utils/ConcurrentHashTable.h:274-287 | the tables have one slot, two, four and so on |
| ConcurrentCalls.MigratesOnlyIfNeeded | pxcutils/pxc/utils/ConcurrentHashTable.h:129-180 | a call asks for the migration of a table only if its key is sealed there, or an insert has met only other keys in every probed slot |
| ConcurrentCalls.AloneReturns | pxcutils/pxc/utils/ConcurrentHashTable.h:57-180 | a call that is alone on a table with a slot for its key returns within twice the limit of the probe and three of its steps |
| ConcurrentFind.FindAnswers | pxcutils/pxc/utils/ConcurrentHashTable.h:164-180 | a find whose key is not bound when it returns answers from a slot that is claimed and not filled, or at the end of a probe the seal or its default |
| ConcurrentFind.FindAnswersExactly | pxcutils/pxc/utils/ConcurrentHashTable.h:164-180 | when the answer is the empty value, the seal and the default, each with its exact condition |
| ConcurrentFind.FindWithoutSeal | pxcutils/pxc/utils/ConcurrentHashTable.h:164-180 | a find that met no seal answers its default, or the empty value of a claimed slot |
| ConcurrentFind.FindAfterSeal | pxcutils/pxc/utils/ConcurrentHashTable.h:164-180 | a find that met a seal answers the seal, at an empty slot or at the limit of the probe, or the empty value of a claimed slot |
| ConcurrentFind.KeyFromInsert | pxcutils/pxc/utils/ConcurrentHashTable.h:57-90 | a key is in a table only after an insert of it has begun |
| ConcurrentFind.FindDefault | pxcutils/pxc/utils/ConcurrentHashTable.h:164-180 | if no insert of the key has begun when the find returns, it answers the caller's default |
| ConcurrentFind.StraysExactlyWithInsert | pxcutils/pxc/utils/ConcurrentHashTable.h:164-180 | a find of an unbound key can answer something else exactly if an insert of it may have begun |
| ConcurrentFind.FindCanAnswerEmpty | pxcutils/pxc/utils/ConcurrentHashTable.h:164-180 | a run in which find(2, 5) answers the empty value for an unbound key |
| ConcurrentFind.FindCanAnswerTheSeal | pxcutils/pxc/utils/ConcurrentHashTable.h:164-180 | a reachable state in which find(2, 5) answers the seal for an unbound key |
| HazardPointers.HandedIsLinked | pxcutils/pxc/utils/HazardPointers.h:109-119 | protect hands out a pointer only while its cell holds it, so no scan for it is under way |
| HazardPointers.ScanMeets | pxcutils/pxc/utils/HazardPointers.h:65-79 | a scan for a handed out pointer has not passed its slot, and stops there |
| HazardPointers.StepInv | pxcutils/pxc/utils/HazardPointers.h:65-133 | every step keeps the invariant |
| HazardPointers.HandedIsAlive | pxcutils/pxc/utils/HazardPointers.h:65-133 | a handed out pointer is announced and not destroyed in any state until its slot is overwritten or cleared |
| HazardPointers.DestroyedIsUnused | pxcutils/pxc/utils/HazardPointers.h:65-79 | only a scan destroys, and never what a slot handed out |
| HazardPointers.DestroyedIsUnreachable | pxcutils/pxc/utils/HazardPointers.h:65-133 | no cell ever holds a destroyed object |
| HazardPointers.RetireDestroys | pxcutils/pxc/utils/HazardPointers.h:65-79 | when a retire call returns, nothing remains in its list that was in no slot all the while |
| FlatHashTable.NormalizeIsLeast | pxcutils/pxc/utils/FlatHashTable.cpp:15-17 | the size is the least power of two that is at least 8 and above the request |
| FlatHashModel.AbsentAtEmpty | pxcutils/pxc/utils/FlatHashTable.h:449-464 | a probe that meets an empty bucket has shown the key absent |
| FlatHashModel.InsertHolds | pxcutils/pxc/utils/FlatHashTable.h:309-336 | putting a new key into the first empty bucket of its probe keeps the table in agreement with the map |
| FlatHashModel.HoleMoves | pxcutils/pxc/utils/FlatHashTable.h:509-547 | moving an entry whose probe crosses the hole leaves a table that is right but for the new hole |
| FlatHashModel.HoleCloses | pxcutils/pxc/utils/FlatHashTable.h:509-547 | an empty bucket after the hole ends the shift with every probe unbroken |
| FlatHashModel.OneMap | pxcutils/pxc/utils/FlatHashTable.h:264-270 | a table determines its map, whose size is the number of used buckets |
| FlatHashTable.WantedCrosses | pxcutils/pxc/utils/FlatHashTable.h:528-547 | the comparison of the second loop, with indices past the end, decides whether the entry's probe crosses the hole |
| FlatHashTable.FlatHashTable.Find | pxcutils/pxc/utils/FlatHashTable.h:449-464 | finds the entry exactly if the key is in the map |
| FlatHashTable.FlatHashTable.Emplace | pxcutils/pxc/utils/FlatHashTable.h:309-336 | adds exactly an absent key, and doubles the buckets exactly if three fifths of them are used |
| FlatHashTable.FlatHashTable.Resize | pxcutils/pxc/utils/FlatHashTable.h:482-507 | the new array holds the same map |
| FlatHashTable.FlatHashTable.Reserve | pxcutils/pxc/utils/FlatHashTable.h:298-307 | the map is unchanged, and that many entries fit without a resize |
| FlatHashTable.FlatHashTable.EraseNode | pxcutils/pxc/utils/FlatHashTable.h:509-547 | removes exactly one key, and changes no bucket from the next empty one on |
| FlatHashTable.FlatHashTable.Erase | pxcutils/pxc/utils/FlatHashTable.h:354-362 | removes the key and reports whether it was there |
| FlatHashTable.FlatHashTable.TryShrink | pxcutils/pxc/utils/FlatHashTable.h:466-472 | keeps the map; resizes exactly if less than a tenth of more than 8 buckets is used, and then leaves the table neither sparse nor full |
| FlatHashTable.FlatHashTable.RemoveIf | pxcutils/pxc/utils/FlatHashTable.h:387-419 | removes exactly the matching entries and asks once about each entry |
| FlatHashTable.FlatHashTable.Iterate | pxcutils/pxc/utils/FlatHashTable.h:57-72 | iteration meets every key exactly once |
| FlatHashTable.FlatHashTable.BeginImpl | pxcutils/pxc/utils/FlatHashTable.h:436-447 | iteration starts at a used bucket |
| TriangularProbe.ProbesDiffer | pxcutils/pxc/utils/FlatHashMapChunks.h:469-483 | the first 2^k triangular probes meet different chunks |
| TriangularProbe.ProbeReaches | pxcutils/pxc/utils/FlatHashMapChunks.h:469-483 | so they meet every chunk |
| ChunkModel.AbsentAtZero | pxcutils/pxc/utils/FlatHashMapChunks.h:265-281 | a probe that reaches a chunk with skipped_cnt 0 without the key has shown it absent |
| ChunkModel.ZeroIsMet | pxcutils/pxc/utils/FlatHashMapChunks.h:265-281 | a chunk with skipped_cnt 0 is met within as many probes as there are chunks |
| ChunkModel.PlacedCounted | pxcutils/pxc/utils/FlatHashMapChunks.h:510-533 | after a placement every skipped_cnt is the number of stored keys whose probe passes the chunk |
| ChunkModel.WithdrawnCounted | pxcutils/pxc/utils/FlatHashMapChunks.h:542-562 | the same after an erasure |
| FlatHashTableChunks.FlatHashTableChunks.Find | pxcutils/pxc/utils/FlatHashMapChunks.h:259-283 | returns the entry of every stored key, the end only for an absent one, and exactly when it never ends |
| FlatHashTableChunks.FlatHashTableChunks.EmplaceNode | pxcutils/pxc/utils/FlatHashMapChunks.h:510-533 | adds the entry, or aborts at a full counter |
| FlatHashTableChunks.FlatHashTableChunks.Resize | pxcutils/pxc/utils/FlatHashMapChunks.h:494-508 | the new table holds the same map |
| FlatHashTableChunks.FlatHashTableChunks.TryGrow | pxcutils/pxc/utils/FlatHashMapChunks.h:432-436 | the same map with room for one more entry, in the same slots if it fits into six sevenths of them and else in twice as many |
| FlatHashTableChunks.FlatHashTableChunks.Emplace | pxcutils/pxc/utils/FlatHashMapChunks.h:327-357 | adds the entry exactly if the key is absent, and exactly when it never ends |
| FlatHashTableChunks.FlatHashTableChunks.EraseNode | pxcutils/pxc/utils/FlatHashMapChunks.h:542-562 | removes exactly that entry |
| FlatHashTableChunks.FlatHashTableChunks.Erase | pxcutils/pxc/utils/FlatHashMapChunks.h:375-383 | removes the key and reports whether it was there, and exactly when it never ends |
| FlatHashTableChunks.FlatHashTableChunks.RemoveIf | pxcutils/pxc/utils/FlatHashMapChunks.h:401-409 | removes exactly the matching entries |
| FlatHashEndless.LayoutHolds | pxcutils/pxc/utils/FlatHashMapChunks.h:265-281 | a table of two chunks with 19 entries in which both counters are 1 satisfies the invariant |
| FlatHashEndless.FindNeverEnds | pxcutils/pxc/utils/FlatHashMapChunks.h:259-283 | in that valid table the search for an absent key never ends |
| Crc32c.CombinationLaw | pxcutils/pxc/utils/crypto.cpp:1247-1274 | a continued CRC is the old one run over zero bits, combined with the CRC of the new bytes |
| Crc32c.PolynomialReversed | pxcutils/pxc/utils/crypto.cpp:1247-1254 | the constant is the polynomial of section 12.1 of RFC 3720 with its bits reversed |
| Crc32c.ExtendIsConcat | pxcutils/pxc/utils/crypto.cpp:1221-1223 | extending a CRC gives the CRC of the concatenation |
| Crc32c.SquareTwice | pxcutils/pxc/utils/crypto.cpp:1239-1243 | squaring a matrix is composing it with itself |
| Crc32c.RowIsSteps | pxcutils/pxc/utils/crypto.cpp:1248-1260 | row n of the table is 2^n zero bits |
| Crc32c.MatrixTimes | pxcutils/pxc/utils/crypto.cpp:1227-1237 | the loop computes the product of matrix and vector |
| Crc32c.MatrixSquare | pxcutils/pxc/utils/crypto.cpp:1239-1243 | the loop computes the square of a row of the table |
| Crc32c.BuildPowers | pxcutils/pxc/utils/crypto.cpp:1248-1260 | the table holds all 32 rows |
| Crc32c.Combine | pxcutils/pxc/utils/crypto.cpp:1247-1274 | for every message shorter than 2^29 bytes the result is the CRC continued over it |
| Crc32c.TableReach | pxcutils/pxc/utils/crypto.cpp:1266-1273 | the loop stays inside the table exactly for sizes below 2^29 |
| Heap.TopIsLeast | pxcutils/pxc/utils/Heap.h:36-38 | the top key is the least |
| Heap.SwapDown | pxcutils/pxc/utils/Heap.h:134-155 | swapping with the least child keeps the order but below the item |
| Heap.KHeap.FixUp | pxcutils/pxc/utils/Heap.h:112-130 | restores the order with exact back-pointers and the same items |
| Heap.KHeap.FixDown | pxcutils/pxc/utils/Heap.h:132-156 | the same downwards, leaving at most the link above the start broken |
| Heap.KHeap.Insert | pxcutils/pxc/utils/Heap.h:58-62 | adds exactly one item |
| Heap.KHeap.Fix | pxcutils/pxc/utils/Heap.h:64-74 | changes exactly one key |
| Heap.KHeap.Erase | pxcutils/pxc/utils/Heap.h:76-81 | removes exactly one item, whose node no longer has a position |
| Heap.KHeap.Pop | pxcutils/pxc/utils/Heap.h:50-56 | removes and returns the top node |
| MultiTimeout.SameTop | pxcactor/pxc/actor/MultiTimeout.cpp:17-35 | a change of a node that is not the top before or after leaves the top key |
| MultiTimeout.MultiTimeout.SetTimeoutAt | pxcactor/pxc/actor/MultiTimeout.cpp:17-35 | the map of timeouts has exactly this key changed, and the actor's timeout follows the top |
| MultiTimeout.MultiTimeout.AddTimeoutAt | pxcactor/pxc/actor/MultiTimeout.cpp:37-50 | an existing timeout is kept |
| MultiTimeout.MultiTimeout.CancelTimeout | pxcactor/pxc/actor/MultiTimeout.cpp:52-66 | removes exactly this key |
| MultiTimeout.MultiTimeout.UpdateTimeout | pxcactor/pxc/actor/MultiTimeout.cpp:68-87 | its checks hold, and the actor's timeout is the top key |
| MultiTimeout.MultiTimeout.GetExpiredKeys | pxcactor/pxc/actor/MultiTimeout.cpp:89-97 | removes exactly the keys below now and returns them in timeout order |
| MultiTimeout.MultiTimeout.TimeoutExpired | pxcactor/pxc/actor/MultiTimeout.cpp:99-107 | the same on a timer event, after which the actor's timeout is right again |
| MultiTimeout.MultiTimeout.RunAll | pxcactor/pxc/actor/MultiTimeout.cpp:109-117 | the same for everything due within 1e10 seconds |
| FloodControlStrict.WaitsAllows | pxcutils/pxc/utils/FloodControlStrict.h:49-81 | an event no earlier than the wake-up time respects the limit, whatever was skipped or dropped |
| FloodControlStrict.WakeupIsExact | pxcutils/pxc/utils/FloodControlStrict.h:49-81 | a time from now on is at or after the wake-up time exactly if every limit allows an event then |
| FloodControlStrict.FloodControlStrict.AddEvent | pxcutils/pxc/utils/FloodControlStrict.h:20-27 | any count + 1 consecutive events span at least the limit's duration |
| FloodControlStrict.FloodControlStrict.Update | pxcutils/pxc/utils/FloodControlStrict.h:49-81 | restores the invariant of positions, skipped updates and wake-up time |
| FloodControlStrict.FloodControlStrict.AddLimit | pxcutils/pxc/utils/FloodControlStrict.h:30-33 | a new limit is empty and forces an update |
| Uint128.AddIsSum | pxcutils/pxc/utils/uint128.h:46-53 | addition modulo 2^128 |
| Uint128.SubIsDifference | pxcutils/pxc/utils/uint128.h:98-104 | subtraction modulo 2^128 |
| Uint128.ShlMultiplies | pxcutils/pxc/utils/uint128.h:54-65 | a left shift by any count multiplies by the power of two, modulo 2^128 |
| Uint128.ShrDivides | pxcutils/pxc/utils/uint128.h:66-77 | a right shift by any count divides by the power of two |
| Uint128.MultIsProduct | pxcutils/pxc/utils/uint128.h:79-91 | multiplication modulo 2^128 |
| Uint128.LeadingZerosIs | pxcutils/pxc/utils/uint128.h:177-182 | the leading zeros of both words together |
| Uint128.DivMod | pxcutils/pxc/utils/uint128.h:105-129 | exact quotient and remainder below the divisor, for every nonzero divisor |
| Uint128.DivisionIsUnique | pxcutils/pxc/utils/uint128.h:105-129 | quotient and remainder are determined by that |
| Uint128.DivModSigned | pxcutils/pxc/utils/uint128.h:143-172 | truncated signed division whenever the quotient fits into 64 bits |
| PqFactorize.Gcd | pxcutils/pxc/utils/crypto.cpp:59-83 | the greatest common divisor, for an odd second number |
| PqFactorize.AddMul | pxcutils/pxc/utils/crypto.cpp:86-101 | (c + a * b) mod pq without overflow, for pq up to 2^63 |
| PqFactorize.Search | pxcutils/pxc/utils/crypto.cpp:111-132 | one start ends with the first common divisor that is not 1, or after all its turns with 1: the j-th value is compared with the one at the last power of two before j |
| PqFactorize.Factorize | pxcutils/pxc/utils/crypto.cpp:103-140 | the answer is the smaller of a proper divisor and its quotient if one of the starts that are made ends with a proper divisor, and else 1; 2 for an even pq |
| PqFactorize.EndsOnce | pxcutils/pxc/utils/crypto.cpp:112-128 | what a start ends with, and after how many turns, is determined by its draws |
| PqFactorize.OneAnswer | pxcutils/pxc/utils/crypto.cpp:103-140 | the answer is determined by pq and the draws |
| PqFactorize.Fifteen | pxcutils/pxc/utils/crypto.cpp:103-140 | for 15 with the first draws 17 and 1 it is 3 |
| PqCycle.CollisionComes | pxcutils/pxc/utils/crypto.cpp:112-128 | modulo a divisor p the squares run into a cycle, so that one of the first 4p comparisons does not give 1 |
| PqCycle.SmallDivisorIsFound | pxcutils/pxc/utils/crypto.cpp:112-128 | a start whose limit is at least 4p, for a divisor p > 1 of pq, ends with a common divisor in fewer than 4p turns |
| MpmcQueue.StepInv | pxcutils/pxc/utils/MpmcQueue.h:365-424 | every step keeps the invariant |
| MpmcQueue.NeverStuck | pxcutils/pxc/utils/MpmcQueue.h:365-424 | no thread ever stands outside the chain or a block |
| MpmcQueue.ExactlyOnce | pxcutils/pxc/utils/MpmcQueue.h:365-424 | each pushed item is in exactly one hand or slot, or was returned, once |
| MpmcQueue.NothingStranded | pxcutils/pxc/utils/MpmcQueue.h:398-424 | a stored item is ahead of the readers, or a thread has its position and returns it with its next step |
| MpmcQueue.FalseMeansTaken | pxcutils/pxc/utils/MpmcQueue.h:398-424 | try_pop returns false only if all that was stored before the call is popped or about to be |
| MpmcCalls.ReturnedWasPushed | pxcutils/pxc/utils/MpmcQueue.h:365-424 | what try_pop returned was pushed, each item at most once |
| MpmcCalls.PushedIsSomewhere | pxcutils/pxc/utils/MpmcQueue.h:365-424 | what was pushed is in a hand, in a slot or returned |
| SpscQueue.FreeSlots | pxcutils/pxc/utils/queue.h:109-116 | writer_size on wrapped 32-bit indices is the number of free slots |
| SpscQueue.Unread | pxcutils/pxc/utils/queue.h:131-137 | reader_size on wrapped indices is the number of unread items |
| SpscQueue.StepInv | pxcutils/pxc/utils/queue.h:118-251 | every step keeps the invariant |
| SpscQueue.TakenInOrder | pxcutils/pxc/utils/queue.h:118-251 | what was taken is a prefix of what was put |
| SpscQueue.NeverOverwrites | pxcutils/pxc/utils/queue.h:118-120 | a put writes into a slot that holds nothing still to be taken |
| SpscQueue.NothingMeansAllTaken | pxcutils/pxc/utils/queue.h:224-247 | a reader_update that answers 0 has met everything flushed before it |
| SpscQueue.FlushPublishes | pxcutils/pxc/utils/queue.h:127-129 | after a flush everything put can be met |
| SpscCalls.FirstInFirstOut | pxcutils/pxc/utils/queue.h:118-251 | the items taken are the first ones put, as many as there were takes |
| PollQueue.NoLostWakeUp | pxcutils/pxc/utils/queue.h:340-389 | without empty flushes a sleeping reader with items has been signalled once the writer is outside its calls and has nothing to flush |
| PollQueue.UnsignalledMeansBlocks | pxcutils/pxc/utils/queue.h:193-210 | in between, a reader sleeps unsignalled only over whole blocks that puts flushed, and something is still to be flushed |
| PollQueue.NextFlushWakes | pxcutils/pxc/utils/queue.h:340-355 | without empty flushes a flush of something signals a sleeping reader |
| PollQueue.FullBlockIsUnsignalled | pxcutils/pxc/utils/queue.h:293-299 | a run of 1025 puts after which the reader sleeps over a whole block and is not signalled |
| PollQueue.EmptyFlushLoses | pxcutils/pxc/utils/queue.h:340-355 | a run with an empty flush after which a flush does not wake the reader |
| PollQueue.LostExactlyWithEmptyFlush | pxcutils/pxc/utils/queue.h:340-389 | a wake-up can be lost, with nothing left to flush, exactly if the writer may flush with nothing to flush |
| ObjectPool.TakeInv | pxcutils/pxc/utils/ObjectPool.h:222-236 | the exchange on the head keeps the list right: no ABA, as a single thread pops |
| ObjectPool.PushInv | pxcutils/pxc/utils/ObjectPool.h:238-246 | so does a release from any thread |
| ObjectPool.StepInv | pxcutils/pxc/utils/ObjectPool.h:195-246 | every step keeps the invariant |
| ObjectPool.CreatorNeverStuck | pxcutils/pxc/utils/ObjectPool.h:222-236 | the loop never meets an empty list, and compares against a link that is still as it was read |
| ObjectPool.ListedIsUnused | pxcutils/pxc/utils/ObjectPool.h:222-246 | a storage is in the list exactly if nobody owns, fills or releases it |
| ObjectPool.TakenWasFree | pxcutils/pxc/utils/ObjectPool.h:222-236 | what is handed out was free and leaves the list |
| ObjectPool.AliveMeansValid | pxcutils/pxc/utils/ObjectPool.h:43-55 | a read that is_alive confirms afterwards saw the object the pointer was made for |
| ObjectPool.OwnedIsAlive | pxcutils/pxc/utils/ObjectPool.h:207-211 | only the release of its object ends a weak pointer |
| ObjectPool.NewOnlyIfNoneFree | pxcutils/pxc/utils/ObjectPool.h:222-226 | a new storage is made exactly if none of the present ones is free |
| ObjectPool.ListedIsBlank | pxcutils/pxc/utils/ObjectPool.h:207-211 | a storage in the list has no data |
| ChainBuffer.StepInv | pxcutils/pxc/utils/buffer.h:482-509 | every step of the writer and of any iterator keeps the invariant |
| ChainBuffer.ConsumedIsPrefix | pxcutils/pxc/utils/buffer.h:482-526 | what an iterator has read is always a prefix of what was appended |
| ChainBuffer.GoneReadAll | pxcutils/pxc/utils/buffer.h:499-507 | an iterator at the end of the chain has read everything, and the writer is closed |
| ChainBuffer.NothingMeansAllSeen | pxcutils/pxc/utils/buffer.h:491-501 | an empty read with a writer has met all that was appended when has_writer was read |
| ChainBuffer.BehindIsNotGone | pxcutils/pxc/utils/buffer.h:538-561 | an iterator that is behind another one is not at the end of the chain |
| ChainBuffer.BehindFindsMore | pxcutils/pxc/utils/buffer.h:538-561 | an iterator that is behind another one always reads something or goes on |
| ChainCalls.ReadIsPrefix | pxcutils/pxc/utils/buffer.h:482-526 | what an iterator has read are the first bytes of those that the calls appended |
| ChainCalls.FirstReads | pxcutils/pxc/utils/buffer.h:482-526 | the first iterator has read exactly as many of them as were confirmed for it |
| FindBoundary.Range.Advance | pxcutils/pxc/utils/buffer.h:538-561 | skips exactly that many bytes across nodes, and copies them |
| FindBoundary.FindBoundary | pxcutils/pxc/utils/find_boundary.cpp:13-49 | answers whether the boundary starts at or after already_read, and stops where nothing before can start it, whatever follows |
| FindBoundary.SessionFindsFirst | pxcutils/pxc/utils/find_boundary.cpp:13-49 | calls resumed over growing data find the first occurrence as soon as it is there |
| AesIge.BatchAt | pxcutils/pxc/utils/crypto.cpp:494-524 | CBC over the prepared blocks, xored with the blocks before, is IGE |
| AesIge.IgeAt | pxcutils/pxc/utils/crypto.cpp:486-524 | each output block is the cipher of the input block xored with the output before, xored with the input before |
| AesIge.IgeBackAt | pxcutils/pxc/utils/crypto.cpp:526-546 | the inverse of that, block by block |
| AesIge.IgeCut | pxcutils/pxc/utils/crypto.cpp:486-524 | a message may be cut anywhere if the vector is carried over |
| AesIge.IgeRoundTrip | pxcutils/pxc/utils/crypto.cpp:526-546 | decryption undoes encryption |
| AesIge.IgeOnto | pxcutils/pxc/utils/crypto.cpp:486-546 | every text is the encryption of its decryption |
| AesIge.AesIgeState.Encrypt | pxcutils/pxc/utils/crypto.cpp:486-524 | the batches compute the plain recurrence, also in place, and leave the vector for what follows |
| AesIge.AesIgeState.Decrypt | pxcutils/pxc/utils/crypto.cpp:526-546 | the inverse recurrence, also in place |
| Utf8.FirstOfEncode | pxcutils/pxc/utils/utf8.cpp:85-102 | a written character is accepted and read back, whatever follows |
| Utf8.FirstIsEncode | pxcutils/pxc/utils/utf8.cpp:15-63 | an accepted character is the shortest encoding of a scalar |
| Utf8.Check | pxcutils/pxc/utils/utf8.cpp:15-63 | accepts exactly the encodings of sequences of scalars |
| Utf8.NextIsFirst | pxcutils/pxc/utils/utf8.cpp:65-83 | on valid text the unchecked reader agrees with the checks |
| Utf8.EncodeAllInjective | pxcutils/pxc/utils/utf8.cpp:85-102 | a text is the encoding of at most one sequence |
| JsonString.Print | pxcutils/pxc/utils/JsonBuilder.cpp:60-136 | on valid UTF-8 the checks pass and the escapes are printed character by character |
| JsonString.TurnOfPrinted | pxcutils/pxc/utils/JsonBuilder.h:97-134 | a printed character, also a surrogate pair, is read as one turn that emits its encoding |
| JsonString.DecodePrinted | pxcutils/pxc/utils/JsonBuilder.cpp:138-227 | decoding a printed string gives the text back, whatever follows |
| JsonSpelling.TurnOfSpelled | pxcutils/pxc/utils/JsonBuilder.cpp:138-227 | a raw byte, a short escape, four hexadecimal digits of either case or a pair of surrogates is one turn that emits its meaning |
| JsonSpelling.DecodeSpelled | pxcutils/pxc/utils/JsonBuilder.cpp:138-227 | every spelling is decoded to its meaning, whatever follows the closing quote |
| JsonSpelling.DecodesExactly | pxcutils/pxc/utils/JsonBuilder.cpp:138-227 | the decoder accepts exactly the spellings and gives their meaning |
| JsonSpelling.DecodeSpells | pxcutils/pxc/utils/JsonBuilder.cpp:138-227 | a text that writes characters, each in any of its ways, is decoded to their encodings |
| JsonSpelling.EitherCase | pxcutils/pxc/utils/misc.h:206-215 | u00E9 and u00e9 are both decoded to the two bytes of the letter |
| JsonSpelling.PrintSpells | pxcutils/pxc/utils/JsonBuilder.cpp:60-136 | the printer writes ASCII only, and every character in one of these ways |
| JsonRoundTrip.ParseStored | pxcutils/pxc/utils/JsonBuilder.cpp:296-414 | a printed value, compact or with any offset, is parsed back exactly if its depth is allowed, and refused otherwise |
| JsonRoundTrip.DecodeEncoded | pxcutils/pxc/utils/JsonBuilder.h:801-825 | json_decode of json_encode gives the value back exactly if its depth is at most 100 |
| JsonRoundTrip.NestedRefused | pxcutils/pxc/utils/JsonBuilder.h:801-825 | an array inside 101 arrays prints and is refused, inside 100 it comes back |
| JsonRoundTrip.EncodeInjective | pxcutils/pxc/utils/JsonBuilder.h:814-825 | the printed form determines the value |
| JsonRoundTrip.LineIs | pxcutils/pxc/utils/JsonBuilder.h:614-647 | a line of the pretty form begins with three spaces a level |
| JsonGrammar.ParseWritten | pxcutils/pxc/utils/JsonBuilder.cpp:296-414 | a value in any layout, with whitespace around every token and strings in any spelling, is parsed to its value exactly if its depth is allowed |
| JsonGrammar.DecodeDocument | pxcutils/pxc/utils/JsonBuilder.h:801-812 | so is a whole document, and it is refused if nested more than 100 levels |
| JsonGrammar.DecodesDocuments | pxcutils/pxc/utils/JsonBuilder.h:801-812 | json_decode gives a value exactly if the text writes it, with at most 100 levels |
| JsonRoundTrip.ParsedIsPrintable | pxcutils/pxc/utils/JsonBuilder.cpp:296-414 | a parsed value has tokens for numbers and no more than the allowed depth |
| JsonRoundTrip.DecodeAgain | pxcutils/pxc/utils/JsonBuilder.h:801-825 | printing a decoded document with valid texts and decoding it again changes nothing |
| JsonBuilder.JsonBuilder.Put | pxcutils/pxc/utils/JsonBuilder.h:614-647 | appends the printed form of the value and restores the offset, whose check holds |
| JsonBuilder.JsonBuilder.PutItems | pxcutils/pxc/utils/JsonBuilder.h:340-380 | separates the items as the flag of the scope says |
| JsonBuilder.JsonEncode | pxcutils/pxc/utils/JsonBuilder.h:814-825 | what it prints is decoded to the value |
| JsonSlices.MeaningKept | pxcutils/pxc/utils/JsonBuilder.h:651-657 | a value that is slices of the text keeps its meaning while that text is kept |
| JsonSlices.TurnEmits | pxcutils/pxc/utils/JsonBuilder.cpp:138-227 | a turn of the decoder overwrites nothing that is unread |
| JsonParser.Parser.StringDecode | pxcutils/pxc/utils/JsonBuilder.cpp:138-227 | the decoded text stands in the buffer, and what is before it and what is unread is unchanged |
| JsonParser.Parser.DoDecode | pxcutils/pxc/utils/JsonBuilder.cpp:296-414 | returns slices that mean the parsed value, or fails exactly when parsing does |
| JsonParser.Parser.DecodeItems | pxcutils/pxc/utils/JsonBuilder.cpp:322-350 | the slices of earlier items stay valid while later ones are decoded in place |
| JsonParser.JsonDecode | pxcutils/pxc/utils/JsonBuilder.h:801-812 | the slices in the final buffer mean the value that the document writes; it is refused exactly if it writes none with at most 100 levels |
| DecTree.SplitEntries | pxcutils/pxc/utils/DecTree.h:137-154 | a split keeps the entries in order, the priorities and the sizes |
| DecTree.MergeIs | pxcutils/pxc/utils/DecTree.h:156-173 | so does a merge |
| DecTree.InsertIs | pxcutils/pxc/utils/DecTree.h:46-67 | an absent key's entry is put into its place and everything else stays |
| DecTree.InsertKeepsOrder | pxcutils/pxc/utils/DecTree.h:46-67 | insertion keeps the tree valid exactly if the key is absent or its node's priority is not below the new one |
| DecTree.InsertAlwaysKeepsOrder | pxcutils/pxc/utils/DecTree.h:46-67 | whatever priority is drawn the tree stays valid exactly if the key is absent or its node has the highest priority |
| DecTree.InsertedTwice | pxcutils/pxc/utils/DecTree.h:46-67 | a key inserted with a low and then with a higher priority is there twice |
| DecTree.RemoveIs | pxcutils/pxc/utils/DecTree.h:69-85 | a present key's entry goes, an absent key changes nothing |
| DecTree.RemoveValid | pxcutils/pxc/utils/DecTree.h:69-85 | removal keeps the tree valid and leaves no such key |
| DecTree.RemoveInserted | pxcutils/pxc/utils/DecTree.h:46-85 | removal undoes an insertion |
| DecTree.GetIs | pxcutils/pxc/utils/DecTree.h:87-98 | finds the value exactly if the key is there |
| DecTree.GetByIdx | pxcutils/pxc/utils/DecTree.h:100-110 | gives the entry with that many before it |

## Left out

- Weak memory: every protocol is interleaved sequentially consistently.
- ChainScheduler: the extra payload, `for_each`, `for_each_dependent` and printing; ids of tasks are parameters.
- EpochReclamation: calls of `retire` or `lock` inside a section, and the wrap of the 64-bit epoch.
- SleepyWaiter: closing the waiter, and a thousand or more workers, which its checks exclude.
- StealingQueue: stealing from the own queue, and the wrap of 64-bit positions.
- ConcurrentHashMap: `for_each`, the reclamation of old tables and the wrap of the generation.
- HazardPointers: threads that share a slot, and `to_delete_size_unsafe`.
- FlatHashTable: the constructors from lists, assignment, values changed through references, and the abort on 2^29 buckets.
- FlatHashTableChunks: iterators, assignment and the SIMD variants of the control-byte scan.
- Heap.KHeap.Erase: nodes of another heap, which the source does not detect; the release of capacity.
- MultiTimeout.MultiTimeout.TimeoutExpired: callbacks are the returned keys; the actor is reduced to its timeout and the pending timeout events; timeouts are reals without NaN.
- FloodControlStrict: events before the wake-up time, and limits added after events.
- Crc32c: 32-bit words are lists of bits; the byte-wise CRC itself belongs to a library.
- Uint128: the variant on compiler intrinsics.
- Uint128.DivModSigned: for a quotient whose low word is 2^63 the source negates the least 64-bit integer, a signed overflow; the model wraps.
- PqFactorize: random draws are parameters; the BigNum variant.
- MpmcQueue: nodes are never freed; OneValue's move of the value and its exchange are one step; the older queues of the same file.
- SpscQueue: blocks are never freed; the backoff of waiting readers.
- PollQueue: `reader_update` is one load, the flush of a full block and the start of the next one are one step, and the descriptor is a flag.
- ObjectPool: the wrap of the 32-bit generation, `create_empty`, and destruction of the pool.
- ChainBuffer: reference counts, prepending, and the capacity of a buffer.
- FindBoundary.FindBoundary: requires a boundary that is not empty and at most 74 bytes, which the source checks or reads.
- AesIge.AesIgeState.Encrypt: requires buffers of equal size, as the source takes its count from the target.
- AesIge.AesIgeState.Decrypt: requires buffers of equal size, for the same reason.
- JSON: the error texts, json_string_skip and do_json_skip, access to the fields of objects, raw values and numbers of the builder, and the limit of its buffer.
- DecTree: keys are integers; choosing a random entry.
- Hints, MpscPollableQueue, the TL storers and parsers, OrderedEventsProcessor, codecs and hashes: members of the same kinds as above, or easier ones.
- The network layer, actors and their scheduling, files, logs and clocks.
