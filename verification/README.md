# A Dafny model of the ARM/MIPS communication stack

The `cpu_comm` driver lets two CPUs call each other through shared memory. This project models its
protocol, its shared data structures and its object pools, and proves what they keep over whole
histories and interleavings. A smaller part covers the reference counts and the clock rollback of
the `tvtop` driver. `dafny verify dfyconfig.toml` checks everything.

| files | what they model |
|---|---|
| Handshake, CpuPair, HandshakeRuns, SharedRecords | messages and ACKs in the eight shared records, both CPUs and both directions at once |
| RoutineTable, RoutineTheory, RoutineHistories, RoutineRaces, RoutineWipes, RoutineTableCode | the hash table of routines, 1024 buckets and 200 overflow slots |
| SmmHeap, SmmTheory, SmmRuns, SmmAnswers, SmmWords, SmmSpills, SmmHeapCode, SmmCounters | the shared-memory allocator, as a value and as words in memory |
| Fifo, Spsc | the ring FIFO, called in sequence and shared by a producer and a consumer |
| MsgList, Pools, WaitRuns, WaitWakes | circular lists, pools of wait objects and call entries, overlapping remote calls and what ends their waits |
| UserQueue | per-descriptor delivery queues |
| TvTop, TvRefs | clock lists with rollback, cascading reference counts |
| Common | what several of these share |

Where the driver changes memory in place the model does too: classes `SharedRecords`,
`RoutineTable`, `SharedHeap`, `CommFifo`, `SessionList`, `ReturnQueue`, `CallPool`, `Context`,
`Registry`, `ClockList`, `Submodule` and `ClkRefs` hold the driver's words and arrays, and their
methods are proved against functions on values. The theorems are about those functions, or about
state machines whose steps are the single stores, loads and locked regions of the driver.

## What is assumed

- Handshake: memory is coherent, both CPUs follow the same protocol, and no timed acquire expires. A
  doorbell may be served at any time, whether or not it was rung. `BypassLosesMessage` shows that
  the assumption on the 100 ms acquire of the send semaphore is needed.
- Routine table: registered keys are not zero where a lemma says so. Lookups, removals and the locked
  part of a registration are one step each. The duplicate check of a registration runs before the lock
  is taken: `RegistrationInAnyHistory` is about registrations that do not overlap, `RegisteredTwiceIff`
  about those that do.
- Heap: entry 0 of the page table is zero before initialisation, because only the header page is
  cleared. The region lies page-aligned in the 32-bit address space, its kernel address is not below
  its physical address, and the physical address is at least its size (`PlacedAt`).
- Wait objects: session ids are distinct among the waits that are outstanding or were left on the
  list. `SessionsDiffer` says exactly when the driver's counter repeats one.
- Answers: an entry is staged once until its caller has taken it.

## Where the code differs from what it promises

- SendCommLow and SendAckLow spin until they read back the sent bit they have just set. When the other
  side takes the bit first they spin for ever. `StuckIff` has the exact step, `SenderStuckRun` and
  `ReceiverStuckRun` the runs, `StuckForGood` that nothing later helps.
- A RETURN whose waiter is not found is never acknowledged: no continuation wakes its sender
  (`TokenLostOnlyByBailout`, `StrandedRun`, `StuckForGood`), which is left to its time-out.
  `ReturnStrandsIff` says which RETURNs those are.
- A wait object keeps its session word and its semaphore count when it is given back. A RETURN that
  comes after the time-out of its call still raises the count, and the next call with that object is
  woken at once (`LateReturnWakesNext`). `WakesIff` and `TakenCleanIff` say exactly when a call is woken
  by its own RETURN only.
- The 1224th registration succeeds and then FindRoutineEx, AddInRoutine and RemoveRoutine refuse
  everything, because they reject a count above 1223. `AddLookups` has the exact condition and
  `LastSlotHidesAll` a history that gets there. Removal by pid or by CPU does not look at the count: one
  that removes something brings back the routines it spares, as far as their chains still reach them
  (`WipeRevives`).
- Removal by pid or by CPU leaves links in emptied slots. A later registration can then return 0 and not
  be found (`LostRegistration`), or hide another key (`CuttingRegistration`); `RegistrationAnywhere` has
  the exact conditions. When the first free overflow slot still has a link, every registration that
  needs an overflow slot is refused, for good as far as registrations go (`BlockedRun`,
  `BlockedRefuses`, `BlockedForGood`).
- A key can be registered twice, because the duplicate check is outside the lock. It is exactly when
  another thread's insertion of the key between check and insertion was not removed again
  (`RegisteredTwiceIff`, `DoubleRegistration`). The second copy is never seen while the first is there
  (`InsertFinds`) and appears when the first is removed (`NextCopyAppears`).
- `RemoveRoutine` does not unlink an emptied tail. A later registration can then share that overflow
  slot between two chains, and a removal can lose a key of the other chain.
  `RemoveKeepsLookupsIff` has the exact condition, `MixedHistoryLosesAKey` a history.
- The result of `RemoveRoutine` compares the descriptor with the slot after the successor was moved in,
  where the comment speaks of the removed routine. `RemoveResultIff` says exactly when the result is
  still the documented one, `WrongRemoveResult` has a reachable table where it is not.
- The size class is one more than the documented ceiling of the logarithm. For 1025 to 2048 bytes it
  is 12, whose list head is the word that counts allocations (`ClassTwelve`).
- Requests whose page count or new break leaves 32 bits are answered with the heap header, with a
  block outside the heap, or with a damaged break (`LargeSafeIff`, `HugeRequestReturnsHeader`).
- Taking a block off a free list decrements the split counter of the page after the block's page, and
  writes the word behind it when the counter becomes 0. For a block of the last page of a heap whose
  size is a multiple of the page size, that entry is one past the table. It reaches into the data pages
  exactly for the page counts in `PastTable` (`PopReaches`) and then hits the first block handed out
  (`SpillHitsLive`, with the values written). `ThirdRequestSpills` is such a run on 4 MB. Heaps of any
  other size never spill (`UnalignedNeverSpills`), and without a spill no request changes a word of a
  live block (`Request`).
- The same decrement, meant for the page of the block, goes to the page behind it also inside the table:
  after two splits and one more request of the first size both pages are miscounted (`WrongCounter`).
- `fifo_requestItemWr` returns the next slot's address also when the FIFO has become full; the
  comment promises 0. `RequestItemWr` has the exact condition, `FullWithoutZero` a FIFO.
- A RemoveRoutine that fails with -EFAULT keeps the spinlock (`RoutineTable.RemoveRoutine`). It, and an
  AddInRoutine that fails with -EINVAL under the lock, leave the version word one too high instead of
  two (`RemoveVersion`, `AddVersion`).
- A call entry whose copy from user space faults is lost to the pool (`CallPool.Fill`).
- A sender that comes through the device's ioctl leaves its wait object on the list when it has been
  acknowledged, and also when the copy to user space faults: `out_cleanup_wait` cleans nothing.
  `DirectSendLeaks` is such a run; `LeakAccount` counts what is left after any mix of such senders and
  remote calls.
- A failing `clock_enable` leaves the failing entry's own clock on when it is the parent that failed.
- When a submodule fails to come up after its clock list, its clocks stay on, and the put that follows
  switches nothing off (`GetThenPut`).
- tvcap can be switched off under tvdisp: by a put without a reference (`StrayPut`), and by the last
  regular put of tvcap between the enabling of tvdisp and the nested get of tvcap
  (`DownUnderDispIff`, `CapDownInWindow`). It also stays off when the get that took the first reference
  to it failed, because later gets do not try again (`CapNeverEnabled`). `DispWithoutCapIff` has both.

## Model

| member | source | states |
|---|---|---|
| CpuPair.RecordAgreement | drivers/cpu_comm/cpu_comm_mem.c:552-576 | both CPUs pick the same record for a message and the same one for its ACK; records of different triples do not overlap; the number gives the driver's address |
| CpuPair.AckSemaphores | drivers/cpu_comm/cpu_comm_mem.c:662-787 | senders wait on semaphores that start at 0, behind the send semaphore of their direction, which starts at 1 |
| Handshake.SendStepInv | drivers/cpu_comm/cpu_comm_proto.c:103-157 | every single store, read-back, wake-up and release of a sender, also the release after a faulted copy, keeps the token invariant of its channel |
| Handshake.RecvStepInv | drivers/cpu_comm/cpu_comm_proto.c:789-963 | every doorbell, dispatch, reset and ACK store of a receiver keeps it, with the slot byte back at 20 from the reset on and the ACK carrying 20 and the session |
| CpuPair.ActionViews | drivers/cpu_comm/cpu_comm_proto.c:675-735 | an action of either CPU is one step of its own channel and no step of any other |
| CpuPair.RunInv | drivers/cpu_comm/cpu_comm_proto.c:1028-1094 | in every interleaving from the initial state all four channels satisfy the invariant |
| CpuPair.HandshakeRefinesLog | drivers/cpu_comm/cpu_comm_proto.c:576-633 | every interleaving, seen from every channel, refines the log post, dispatch that message, wake its sender |
| CpuPair.DispatchedOnceInOrder | drivers/cpu_comm/cpu_comm_proto.c:789-963 | two dispatches deliver two different messages in posting order, with slot and session as posted |
| CpuPair.DispatchedIsPrefix | drivers/cpu_comm/cpu_comm_proto.c:789-963 | what was dispatched is at any time a prefix of what was posted |
| CpuPair.WokenAfterOwnDispatch | drivers/cpu_comm/cpu_comm_proto.c:505-529 | a sender is woken only after its own message was dispatched |
| CpuPair.WokenRecord | drivers/cpu_comm/cpu_comm_proto.c:953-963 | when a sender is woken its record's slot byte is 20, and the ACK carries 20, its session and the type of its direction |
| CpuPair.AckRaisesRegisteredSemaphore | drivers/cpu_comm/cpu_comm_proto.c:977-1016 | an ACK raises, from 0 to 1, exactly the semaphore the waiting sender registered |
| CpuPair.NoProtocolFault | drivers/cpu_comm/cpu_comm_proto.c:807-821 | the reset value 20 is never an index, SendAckLow never finds its sent bit set, no work item is coalesced |
| Handshake.TokenCanAdvance | drivers/cpu_comm/cpu_comm_proto.c:750-771 | while a sender waits, its token is in flight and neither side is stuck, an enabled step brings the wake-up nearer and leaves neither stuck, until the wake-up itself is enabled |
| Handshake.TokenLostOnlyByBailout | drivers/cpu_comm/cpu_comm_proto.c:880-963 | the token leaves the channel exactly by the wake-up or by a RETURN without waiter, and the latter strands the sender |
| Handshake.StuckIff | drivers/cpu_comm/cpu_comm_proto.c:135-145 | a sender gets stuck exactly by a doorbell served before it read its bit back, a receiver exactly by an ACK consumed before it did |
| Handshake.StuckForGood | drivers/cpu_comm/cpu_comm_proto.c:613-620 | over every continuation a stuck or stranded side stays so and the channel posts, wakes or dispatches nothing more |
| Handshake.OneRunPerDoorbell | drivers/cpu_comm/cpu_comm_proto.c:675-735 | over any continuation command_action and ack_action start at most once for every doorbell served |
| HandshakeRuns.ChannelStepsAreRuns | drivers/cpu_comm/cpu_comm_proto.c:675-735 | whatever a channel can do from the end of a run, some longer run of the two CPUs does |
| HandshakeRuns.CanBeWoken | drivers/cpu_comm/cpu_comm_proto.c:505-529 | from every state with a token in flight and neither side stuck some continuation of at most 16 steps wakes the sender |
| HandshakeRuns.EveryRunCanWake | drivers/cpu_comm/cpu_comm_proto.c:505-529 | every run of the two CPUs that ends in such a state goes on to the wake-up by at most 16 actions |
| HandshakeRuns.CanBecomeIdle | drivers/cpu_comm/cpu_comm_proto.c:505-541 | from every state but a spin that never ends or a RETURN without waiter some continuation leads to a free channel with an idle receiver |
| HandshakeRuns.EveryRunCanSendAgain | drivers/cpu_comm/cpu_comm_proto.c:292-541 | every run of the two CPUs in which a channel is neither stuck nor stranded goes on to one where it is free, and from there any message can be posted |
| HandshakeRuns.InitIsARun | drivers/cpu_comm/cpu_comm_mem.c:935-972 | the initial state alone is a run at whose end every channel is idle |
| HandshakeRuns.SenderStuckRun | drivers/cpu_comm/cpu_comm_proto.c:135-145 | every run that ends with the channel idle, the initial state included, goes on to a sender that spins for ever |
| HandshakeRuns.ReceiverStuckRun | drivers/cpu_comm/cpu_comm_proto.c:613-620 | and to a receiver that spins for ever |
| HandshakeRuns.StrandedRun | drivers/cpu_comm/cpu_comm_proto.c:880-963 | and, on the RETURN channels, to a sender that is never acknowledged |
| Handshake.BypassLosesMessage | drivers/cpu_comm/cpu_comm_proto.c:292-300 | on any idle channel a second sender that bypasses the semaphore makes the first message vanish |
| SharedRecordsCode.SharedRecords.constructor | drivers/cpu_comm/cpu_comm_mem.c:935-972 | header bytes of all eight records, no message, no ACK, no session |
| SharedRecordsCode.SharedRecords.SendCommLow | drivers/cpu_comm/cpu_comm_proto.c:103-157 | counter one higher, and slot, type with sent bit, session and semaphore as given, as the steps of the handshake leave them, or rejects and changes nothing; all other records unchanged |
| SharedRecordsCode.SharedRecords.SyncMipsCache | drivers/cpu_comm/cpu_comm_proto.c:675-692 | the doorbell step: takes the sent bit and queues the work item, or does nothing |
| SharedRecordsCode.SharedRecords.SendAckLow | drivers/cpu_comm/cpu_comm_proto.c:576-633 | leaves the ACK half as the receiver's ACK steps leave it, or rejects and changes nothing |
| SharedRecordsCode.SharedRecords.CommandAction | drivers/cpu_comm/cpu_comm_proto.c:789-963 | hands slot and session to the handler, sets the slot byte to 20, keeps the rest of that half, and answers with 20, type, session and semaphore of the message; equals the steps of the handshake taken one after the other |
| SharedRecordsCode.SharedRecords.AckAction | drivers/cpu_comm/cpu_comm_proto.c:977-1016 | equals the sender's steps that consume the ACK and raise the named semaphore, or does nothing |
| RoutineTableCode.RoutineTable.constructor | drivers/cpu_comm/cpu_comm_mem.c:2199-2209 | all slots empty and unlinked, count and version zero |
| RoutineTableCode.RoutineTable.FindRoutineEx | drivers/cpu_comm/cpu_comm_rpc.c:347-401 | the walk over the array terminates and computes the lookup; what it returns are the fields of a slot with that key, name, CPU, flags, data and callbacks each in its place |
| RoutineTableCode.RoutineTable.WalkToEnd | drivers/cpu_comm/cpu_comm_rpc.c:164-186 | finds the last slot of a chain or an empty slot in it, or reports a corrupt entry |
| RoutineTableCode.RoutineTable.AddInRoutine | drivers/cpu_comm/cpu_comm_rpc.c:116-238 | table, count, version and result equal those of the registration function |
| RoutineTableCode.RoutineTable.Insert | drivers/cpu_comm/cpu_comm_rpc.c:154-238 | the same for its locked part alone, which does not look for duplicates |
| RoutineTableCode.RoutineTable.RemoveRoutine | drivers/cpu_comm/cpu_comm_rpc.c:251-328 | the same for removal, including the move of the successor; the spinlock stays held exactly on -EFAULT |
| RoutineTableCode.RoutineTable.RemoveMatching | drivers/cpu_comm/cpu_comm_rpc.c:419-478 | zeroes the key of exactly the occupied slots whose pid word, or whose CPU, is the given one, keeps everything else of every slot, and lowers the count by their number |
| RoutineHistories.HistoryAcyclic | drivers/cpu_comm/cpu_comm_rpc.c:154-233 | over every history of all four mutators links stay in range and acyclic, so every walk ends |
| RoutineHistories.HistoryEmptyEnds | drivers/cpu_comm/cpu_comm_rpc.c:275-314 | over every history of registrations and removals an empty slot ends its chain |
| RoutineHistories.CountIsOccupied | drivers/cpu_comm/cpu_comm_rpc.c:419-478 | over every history of all four mutators the count word is the number of occupied slots |
| RoutineTheory.CountFollowsOccupied | drivers/cpu_comm/cpu_comm_rpc.c:300-316 | every mutator changes count and occupancy by the same amount |
| RoutineTheory.AddLookups | drivers/cpu_comm/cpu_comm_rpc.c:154-233 | registering a new key makes every field of it found and changes no other lookup, if and only if fewer than 1223 entries were present |
| RoutineTheory.AddRefused | drivers/cpu_comm/cpu_comm_rpc.c:194-233 | a refused registration changes no lookup, and -2 means all 200 overflow slots are occupied |
| RoutineTheory.AddResultIff | drivers/cpu_comm/cpu_comm_rpc.c:140-233 | the result of a registration: -22 for a full count or exactly when an entry of the chain belongs to no CPU, -2 exactly when neither chain nor overflow area has an empty slot, 0 otherwise and for a key that is there |
| RoutineTheory.AddVersion | drivers/cpu_comm/cpu_comm_rpc.c:154-233 | the version word goes up by 2 whenever the table changes, by 1 on -22 under the lock, and stays when refused before it |
| RoutineHistories.RegistrationInAnyHistory | drivers/cpu_comm/cpu_comm_rpc.c:116-238 | both of the above in every table reachable by registrations and removals by key that do not overlap |
| RoutineHistories.LastSlotHidesAll | drivers/cpu_comm/cpu_comm_rpc.c:347-360 | a reachable table of 1223 routines in which the next registration succeeds, and then no key is found and every registration and removal by key is refused |
| RoutineWipes.WipeRevives | drivers/cpu_comm/cpu_comm_rpc.c:419-478 | on a full table, where nothing is found, a removal by pid or CPU that removes something makes every spared key found again that its chain reaches, and no other |
| RoutineWipes.ResetLookup | drivers/cpu_comm/cpu_comm_rpc.c:450-478 | after a CPU reset a key is found if and only if its chain reaches an entry of it of another CPU, and what is found is of another CPU |
| RoutineWipes.ExitLookup | drivers/cpu_comm/cpu_comm_rpc.c:419-442 | the same for the pid word after a process has gone |
| RoutineWipes.RegistrationAnywhere | drivers/cpu_comm/cpu_comm_rpc.c:154-238 | over histories of all four mutators: a new key registered with result 0 is found if and only if it is not linked to nothing, and exactly the keys whose walk it cuts are hidden |
| RoutineWipes.LostRegistration | drivers/cpu_comm/cpu_comm_rpc.c:188-221 | a reachable table in which a registration returns 0 and the key is not found |
| RoutineWipes.CuttingRegistration | drivers/cpu_comm/cpu_comm_rpc.c:188-221 | a reachable table in which a registration hides another key |
| RoutineWipes.BlockedRefuses | drivers/cpu_comm/cpu_comm_rpc.c:194-212 | while the first free overflow slot has a link, a new key is refused with -EINVAL if and only if it needs an overflow slot, and the block stays |
| RoutineWipes.BlockedForGood | drivers/cpu_comm/cpu_comm_rpc.c:194-212 | the block outlasts every sequence of registrations |
| RoutineWipes.BlockedRun | drivers/cpu_comm/cpu_comm_rpc.c:194-212 | a reachable table that is blocked with at most 3 routines in it |
| RoutineRaces.InsertFinds | drivers/cpu_comm/cpu_comm_rpc.c:154-238 | an insertion, also of a key that is present, leaves every lookup that succeeds where it was, and an absent key it inserts is found |
| RoutineRaces.RegisteredTwiceIff | drivers/cpu_comm/cpu_comm_rpc.c:147-238 | with insertions and removals of any number of threads interleaved, a key is left with one copy plus the insertions minus the removals of it between its check and its insertion; twice if and only if that is positive |
| RoutineRaces.CopiesAreNet | drivers/cpu_comm/cpu_comm_rpc.c:147-316 | between any two tables of such a race the copies of a key change by the insertions minus the removals that succeeded |
| RoutineRaces.NextCopyAppears | drivers/cpu_comm/cpu_comm_rpc.c:275-316 | a removed key is still found if and only if a second copy lies behind the first on its chain, and then that copy is found |
| RoutineRaces.DoubleRegistration | drivers/cpu_comm/cpu_comm_rpc.c:147-154 | two threads that both find a key missing register it twice |
| RoutineTheory.RemoveLookups | drivers/cpu_comm/cpu_comm_rpc.c:275-316 | the lookup of every other key after a removal, in any reachable table |
| RoutineTheory.RemoveResult | drivers/cpu_comm/cpu_comm_rpc.c:268-316 | -22 exactly for a full count, -1 exactly for a missing key, -14 exactly for an entry of no CPU, each without change; otherwise one entry less |
| RoutineTheory.RemoveVersion | drivers/cpu_comm/cpu_comm_rpc.c:271-326 | the version word goes up by 2, by 1 exactly on -14, and stays exactly on -22 |
| RoutineTheory.WipeVersion | drivers/cpu_comm/cpu_comm_rpc.c:419-478 | removal by pid or CPU raises the version word by 2 |
| RoutineTheory.RemoveKeepsLookupsIff | drivers/cpu_comm/cpu_comm_rpc.c:275-316 | a removal keeps all other lookups if and only if no other key's walk enters the successor around the emptied slot |
| RoutineTheory.RemoveIsDeletion | drivers/cpu_comm/cpu_comm_rpc.c:251-328 | in a tidy table removal is deletion from a map |
| RoutineHistories.RemovalsAfterRegistrations | drivers/cpu_comm/cpu_comm_rpc.c:251-328 | after any registrations each of any following removals is deletion from a map |
| RoutineHistories.MixedHistoryLosesAKey | drivers/cpu_comm/cpu_comm_rpc.c:287-314 | a mixed history in which removing one key loses another |
| RoutineRaces.RemoveResultIff | drivers/cpu_comm/cpu_comm_rpc.c:316-324 | the result is the documented one if and only if the entry ends its chain or its successor matches the descriptor exactly when the entry does |
| RoutineRaces.WrongRemoveResult | drivers/cpu_comm/cpu_comm_rpc.c:316-324 | a reachable table where removing a routine by its own descriptor reports a foreign one |
| SmmHeap.ClassBounds | drivers/cpu_comm/cpu_comm_mem.c:1379-1382 | a block is at least twice and less than four times the request; class 12 exactly above 1024 bytes |
| SmmTheory.InitGood | drivers/cpu_comm/cpu_comm_mem.c:1653-1706 | the initial heap satisfies the allocator's invariant |
| SmmTheory.LargeFits | drivers/cpu_comm/cpu_comm_mem.c:1171-1210 | a large request that does not wrap fails exactly when the break would pass the size; the page-table guard never fires |
| SmmTheory.PageDivTruncates | drivers/cpu_comm/cpu_comm_mem.c:1193 | the page number is computed with C's division: the remainder has the sign of the dividend |
| SmmTheory.MallocGood | drivers/cpu_comm/cpu_comm_mem.c:1229-1562 | every request that does not wrap keeps it: blocks separate, lists well-formed, counters exact, break aligned |
| SmmTheory.LargeSafeIff | drivers/cpu_comm/cpu_comm_mem.c:1253-1376 | a large request is harmless if and only if no 32-bit step of it wraps |
| SmmRuns.HugeRequestReturnsHeader | drivers/cpu_comm/cpu_comm_mem.c:1254-1313 | the last 4095 sizes are answered with the heap header, and counted as an allocation of a free block |
| SmmRuns.MallocBlock | drivers/cpu_comm/cpu_comm_mem.c:1229-1562 | a result is a new block of at least the requested size, aligned and inside; without result nothing changes |
| SmmAnswers.SmallAnsweredIff | drivers/cpu_comm/cpu_comm_mem.c:1378-1561 | 1 to 1024 bytes are answered if and only if their class has a free block or a page is left, with the first free block or the start of that page, whose other blocks become free |
| SmmAnswers.FirstSmall | drivers/cpu_comm/cpu_comm_mem.c:1481-1561 | on a fresh heap with a page left the first request of 1 to 1024 bytes is answered with the first data page |
| SmmAnswers.LargeAnsweredIff | drivers/cpu_comm/cpu_comm_mem.c:1253-1376 | more than 2048 bytes are answered if and only if their pages fit, with the pages at the break |
| SmmAnswers.RefusedForGood | drivers/cpu_comm/cpu_comm_mem.c:1481-1561 | in every run a request of 1 to 1024 bytes is refused exactly when its class is exhausted, and then so is every later one of that class |
| SmmAnswers.LargeRefusedForGood | drivers/cpu_comm/cpu_comm_mem.c:1171-1210 | in every run a refused large request is followed by refusals of all that are at least as large |
| SmmRuns.ClassTwelve | drivers/cpu_comm/cpu_comm_mem.c:1384-1412 | 1025 to 2048 bytes succeed if and only if nothing was allocated before and a page is left |
| SmmRuns.ResultStays | drivers/cpu_comm/cpu_comm_mem.c:1229-1562 | a result stays a live block, aligned and inside, in every later heap of the run |
| SmmRuns.AllocationSafety | drivers/cpu_comm/cpu_comm_mem.c:1229-1562 | at any later time two results are disjoint and apart from every block on a free list |
| SmmRuns.Accounting | drivers/cpu_comm/cpu_comm_mem.c:1545-1554 | used plus free bytes is what the break moved; the free words are number and total size of the listed blocks |
| SmmRuns.BreakInRegion | drivers/cpu_comm/cpu_comm_mem.c:1653-1706 | though the base is rounded up, the aligned break and every block end inside the region, with page index inside the table |
| SmmWords.PopReaches | drivers/cpu_comm/cpu_comm_mem.c:1458-1474 | the entry a pop writes reaches into the data pages if and only if the block lies in the heap's last page and the table of that many pages is full at that word; never for a size off the page grid |
| SmmSpills.UnalignedNeverSpills | drivers/cpu_comm/cpu_comm_mem.c:1458-1474 | no pop spills in a heap whose size is not a multiple of the page size |
| SmmSpills.SpillHitsLive | drivers/cpu_comm/cpu_comm_mem.c:1458-1474 | in every run a spilled word lies in the first block ever handed out; a spilled decrement changes that block, and where only the third word spills it becomes the number of the next free block in its page |
| SmmSpills.ThirdRequestSpills | drivers/cpu_comm/cpu_comm_mem.c:1458-1474 | on 4 MB the requests 4173824, 8, 8: the third decrements a word of the first block |
| SmmSpills.ClientWrites | drivers/cpu_comm/cpu_comm_mem.c:1229-1562 | owners may write anything into their blocks and memory still represents the heap |
| SmmWords.DataKeepsLive | drivers/cpu_comm/cpu_comm_mem.c:1418-1480 | a pop that changes only the back link of the next free block changes no live block |
| SmmWords.BesideLists | drivers/cpu_comm/cpu_comm_mem.c:1458-1474 | writes to the header and to table entries, even spilled ones, keep every free list |
| SmmWords.UnlinkLinked | drivers/cpu_comm/cpu_comm_mem.c:1433-1455 | unlinking the head leaves a doubly linked list of the remaining blocks |
| SmmWords.CarveStep | drivers/cpu_comm/cpu_comm_mem.c:1496-1531 | pushing one carved block keeps all lists of all classes |
| SmmHeapCode.SharedHeap.constructor | drivers/cpu_comm/cpu_comm_mem.c:1653-1706 | the words represent the initial heap |
| SmmHeapCode.SharedHeap.Morecore | drivers/cpu_comm/cpu_comm_mem.c:1141-1210 | page-aligned memory at the break, or 0 at the size or table limit, with the break moved under 32-bit arithmetic |
| SmmHeapCode.SharedHeap.LargePath | drivers/cpu_comm/cpu_comm_mem.c:1253-1376 | header words and result equal the large path of the allocator function; the entry of the first page gets class 0 and the number of pages; no list word is written, and no data word while the table has an entry for the break |
| SmmHeapCode.SharedHeap.PopWords | drivers/cpu_comm/cpu_comm_mem.c:1418-1480 | unlinks the head; no pointer check fires; counters exact; besides them only the two words of the page entry change, to the values given |
| SmmHeapCode.SharedHeap.PopPath | drivers/cpu_comm/cpu_comm_mem.c:1418-1480 | memory represents the heap without the block; without a spill the data pages keep every word but one free back link, with one the spilled words have the values given |
| SmmHeapCode.SharedHeap.Carve | drivers/cpu_comm/cpu_comm_mem.c:1494-1531 | the loop builds the list of all carved blocks and keeps the other lists |
| SmmHeapCode.SharedHeap.SmallPath | drivers/cpu_comm/cpu_comm_mem.c:1378-1561 | memory and result equal the small path; a corruption warning fires exactly for class 12 after an allocation |
| SmmHeapCode.SharedHeap.SizeClass | drivers/cpu_comm/cpu_comm_mem.c:1379-1382 | the shift loop computes one more than the bit length of size - 1 |
| SmmHeapCode.SharedHeap.Shmalloc | drivers/cpu_comm/cpu_comm_mem.c:1229-1562 | memory and result equal the allocator function for every 32-bit size; a warning exactly for 1025 to 2048 bytes after an allocation; live blocks keep every word unless the request spills; split counts and page-table entries have the values of the path taken and no other changes |
| SmmHeapCode.SharedHeap.Request | drivers/cpu_comm/cpu_comm_mem.c:1229-1562 | a request that does not wrap leaves a heap that satisfies the invariant again, changes no word of a live block unless it spills, and enters in the page table exactly what it did |
| SmmCounters.WrongCounter | drivers/cpu_comm/cpu_comm_mem.c:1458-1474 | on every heap with two pages left, requests of two classes and of the first again leave the first page counted as if one block were out, and the second as if two were |
| Fifo.CommFifo.GetCount | drivers/cpu_comm/cpu_comm_fifo.c:206-221 | the number of queued items |
| Fifo.CommFifo.GetItemWr | drivers/cpu_comm/cpu_comm_fifo.c:70-93 | 0 exactly when capacity - 1 items are queued |
| Fifo.CommFifo.SlotsApart | drivers/cpu_comm/cpu_comm_fifo.c:70-93 | slots are the item size apart, do not overlap and end with the buffer |
| Fifo.CommFifo.RequestItemWr | drivers/cpu_comm/cpu_comm_fifo.c:101-134 | appends what the slot holds unless full, and keeps the statistic; the result is 0 for full if and only if the call does not take the last free slot |
| Fifo.CommFifo.PutItem | drivers/cpu_comm/cpu_comm_fifo.c:70-134 | get, write and commit together append the item exactly when the FIFO is not full |
| Fifo.FullWithoutZero | drivers/cpu_comm/cpu_comm_fifo.c:101-134 | a FIFO that is full after a call that did not return 0 |
| Fifo.CommFifo.GetItemRd | drivers/cpu_comm/cpu_comm_fifo.c:141-160 | the oldest item, or 0 exactly when empty |
| Fifo.CommFifo.ItemRdNext | drivers/cpu_comm/cpu_comm_fifo.c:167-201 | drops the oldest item and keeps the statistic |
| Fifo.CommFifo.IsNearlyFull | drivers/cpu_comm/cpu_comm_fifo.c:226-238 | at most margin items fit |
| Fifo.StatIsHighest | drivers/cpu_comm/cpu_comm_fifo.c:125-130 | in mode 1 the statistic is the highest occupancy of the history |
| Fifo.StatIsLowest | drivers/cpu_comm/cpu_comm_fifo.c:189-194 | in mode 0 it is the lowest |
| Fifo.PoolStatistic | drivers/cpu_comm/cpu_comm_mem.c:1019-1048 | a prefilled pool switched to mode 0 records the lowest occupancy since, starting from its fill |
| Spsc.FifoRefinement | drivers/cpu_comm/cpu_comm_fifo.c:70-201 | in every interleaving of loads and stores the consumer gets the committed items once and in order, and no commit or advance after a successful get fails |
| Spsc.GetGivesUpIff | drivers/cpu_comm/cpu_comm_fifo.c:70-160 | in every interleaving a producer's get gives up exactly when the FIFO was full as it loaded the read index, a consumer's exactly when it was empty as it loaded the write index |
| Spsc.PutAlone | drivers/cpu_comm/cpu_comm_fifo.c:70-134 | from every state of every run a producer left alone queues its item unless the FIFO is full |
| Spsc.GetAlone | drivers/cpu_comm/cpu_comm_fifo.c:141-201 | and a consumer left alone takes the oldest item unless it is empty |
| Spsc.WritingUnreadable | drivers/cpu_comm/cpu_comm_fifo.c:70-134 | the slot being written is never readable and never the one the consumer holds |
| MsgList.RingInverse | drivers/cpu_comm/cpu_comm_channel.c:302-340 | next and prev of a ring are mutually inverse |
| MsgList.InsertRing | drivers/cpu_comm/cpu_comm_channel.c:314-329 | insertion before the sentinel appends |
| MsgList.UnlinkRing | drivers/cpu_comm/cpu_comm_channel.c:376-384 | linking the neighbours removes one node and keeps the order |
| MsgList.SessionList.Append | drivers/cpu_comm/cpu_comm_channel.c:302-340 | list, length word and one-byte peak after AddtoWaitComm |
| MsgList.SessionList.Find | drivers/cpu_comm/cpu_comm_channel.c:410-440 | the oldest entry of the session, or none |
| MsgList.SessionList.Take | drivers/cpu_comm/cpu_comm_channel.c:356-396 | unlinks the oldest entry of the session and nothing else; a search that bails out at a foreign node address finds it exactly when it comes before one |
| MsgList.MipsAddressBits | drivers/cpu_comm/cpu_comm.h:91-94 | an address of the other CPU is one whose top three bits are 100 |
| MsgList.ReturnQueue.constructor | drivers/cpu_comm/cpu_comm_mem.c:791-858 | an empty list and an empty staging FIFO satisfy the queue's invariant |
| MsgList.ReturnQueue.AddReturn | drivers/cpu_comm/cpu_comm_channel.c:699-731 | stages an answer and sets its flag unless its address is the other CPU's or the FIFO is full |
| MsgList.ReturnQueue.ReturnPipeLine | drivers/cpu_comm/cpu_comm_channel.c:863-945 | moves the staged entries behind the list in order; drops addresses of the other CPU; stops at a bad slot index |
| MsgList.ReturnQueue.GetReturnBySessionId | drivers/cpu_comm/cpu_comm_channel.c:752-844 | drains, then returns and unlinks the oldest answer of the session, with its list flag set, unless a foreign node comes first; all others keep their order |
| Pools.PrefillWaits | drivers/cpu_comm/cpu_comm_mem.c:726-760 | the FIFO holds the 20 wait objects; no write finds it full; the statistic starts at 20 |
| Pools.WaitObjectsApart | drivers/cpu_comm/cpu_comm_mem.c:711-757 | wait objects lie behind each other, from the end of the ring buffer to before the next semaphore of the socket, and do not overlap |
| Pools.GetFreeWait | drivers/cpu_comm/cpu_comm_channel.c:263-283 | takes the oldest free wait object |
| Pools.ReleaseWait | drivers/cpu_comm/cpu_comm_channel.c:453-482 | puts a wait object back and gives the semaphore back, except that on a full FIFO it does neither |
| Pools.CallPool.constructor | drivers/cpu_comm/cpu_comm_mem.c:935-1053 | 20 distinct entries in the FIFO, each with its number as slot index, and the ring of physical addresses at offset 192 |
| Pools.CallPool.RingBeforeEntries | drivers/cpu_comm/cpu_comm_mem.c:965-1030 | the ring ends before the first entry and the entries end with the record |
| Pools.CallPool.GetFreeCall | drivers/cpu_comm/cpu_comm_channel.c:531-570 | the oldest free entry, at record + 360 + 104 * index; the range check never fires |
| Pools.CallPool.Fill | drivers/cpu_comm/cpu_comm_proto.c:380-405 | the address check after the message copy never fires; a faulted copy loses the entry |
| Pools.CallPool.ReleaseFreeCall | drivers/cpu_comm/cpu_comm_channel.c:587-676 | an entry in use goes back; the FIFO is never full, so the semaphore is given back; FIFO, used and lost entries are the 20 |
| Pools.RoomForRelease | drivers/cpu_comm/cpu_comm_channel.c:624-630 | with an entry outside the FIFO there is room for it |
| WaitRuns.OwnEntry | drivers/cpu_comm/cpu_comm_channel.c:356-396 | the search by a waiting caller's session finds that caller's own object |
| WaitRuns.StepKeeps | drivers/cpu_comm/cpu_comm_rpc.c:520-693 | every step of every remote call and of every direct sender keeps the pool invariant |
| WaitRuns.Conservation | drivers/cpu_comm/cpu_comm_rpc.c:520-693 | in every interleaving each of the 20 objects is in exactly one of FIFO, wait list and one caller's hand |
| WaitRuns.ReleaseNeverFull | drivers/cpu_comm/cpu_comm_channel.c:453-482 | ReleaseWaitComm never finds the FIFO full |
| WaitRuns.GivenBack | drivers/cpu_comm/cpu_comm_rpc.c:676-690 | an object outside the FIFO belongs to an unfinished call or was left on the list by a finished one |
| WaitRuns.CallCanFinish | drivers/cpu_comm/cpu_comm_rpc.c:612-690 | from every state of every run a caller with an object can finish by at most five steps of its own, without any answer, and its object is then in the FIFO |
| WaitRuns.CodeIff | drivers/cpu_comm/cpu_comm_proto.c:505-541 | a call that took a wait object ends with 0 if and only if its CALL_ACK came, with -62 if and only if the wait for it timed out, with -14 if and only if the copy back faulted; one that failed before ends with its own code |
| WaitRuns.LeakAccount | drivers/cpu_comm/cpu_comm_proto.c:488-534 | free objects and leaks never exceed 20 and are exactly 20 when no call is under way; remote calls alone never leak |
| WaitRuns.LeaksCounted | drivers/cpu_comm/cpu_comm_proto.c:488-534 | the leaks of a run are its acknowledged direct sends and faulted copies |
| WaitRuns.DirectSendLeaks | drivers/cpu_comm/cpu_comm_proto.c:505-534 | one acknowledged direct send finishes with 0 and leaves 19 free objects |
| WaitRuns.SessionsDiffer | drivers/cpu_comm/cpu_comm_proto.c:421-422 | two calls share a session id if and only if a multiple of 2^30 calls of the same CPU lies between them |
| WaitWakes.EventKeeps | drivers/cpu_comm/cpu_comm_proto.c:930-960 | every step, wake-up, time-out and RETURN keeps: the object of a waiting call carries its session, and its count is what was left in it plus the RETURNs since |
| WaitWakes.WakesIff | drivers/cpu_comm/cpu_comm_rpc.c:612-621 | in every run a wait can end by a wake-up if and only if a RETURN reached the object since it was taken or a count was left in it; the RETURN carries the call's session |
| WaitWakes.SemaphoreAccount | drivers/cpu_comm/cpu_comm_proto.c:944-951 | an object's count is the RETURNs that matched its session word minus the wake-ups on it, whoever had it |
| WaitWakes.TakenCleanIff | drivers/cpu_comm/cpu_comm_proto.c:457-472 | what is left in an object when it is taken is the RETURNs matched so far minus the wake-ups |
| WaitWakes.OwnReturnAccepted | drivers/cpu_comm/cpu_comm_proto.c:914-951 | a RETURN for a call on the wait list finds its object by search and by address |
| WaitWakes.ReturnStrandsIff | drivers/cpu_comm/cpu_comm_proto.c:914-951 | the sender of a RETURN is stranded if and only if no object is found |
| WaitWakes.LateReturnWakesNext | drivers/cpu_comm/cpu_comm_rpc.c:612-621 | a run in which a late RETURN lets the next call be woken without one of its own |
| UserQueue.Context.Deliver | drivers/cpu_comm/cpu_comm_user.c:90-116 | the queue holds the newest accepted messages, at most 32; drops are counted |
| UserQueue.Context.Read | drivers/cpu_comm/cpu_comm_user.c:173-215 | takes the oldest message, also when the copy faults; the error cases change nothing |
| UserQueue.Accounted | drivers/cpu_comm/cpu_comm_user.c:72-118 | deliveries are the messages taken, queued and dropped |
| UserQueue.ReadInOrder | drivers/cpu_comm/cpu_comm_user.c:90-215 | whatever was pushed out, what a reader took and finds queued is among the accepted messages in their order |
| UserQueue.KeptPush | drivers/cpu_comm/cpu_comm_user.c:101-113 | a push, with or without dropping the oldest, keeps the newest messages in order |
| UserQueue.Registry.Deliver | drivers/cpu_comm/cpu_comm_user.c:72-118 | every open descriptor gets the message once |
| TvTop.ClockList.ClockEnable | drivers/tvtop/sunxi_tvtop_clk.c:149-258 | succeeds if and only if every answer that is asked for is 0, else fails with the first error; flags equal net enables; success switches all on; after a failure all entries before the failing one are off and all after it untouched |
| TvTop.ClockList.ClockDisable | drivers/tvtop/sunxi_tvtop_power.c:453-465 | everything that can be reached is off and balanced |
| TvTop.Submodule.Enable | drivers/tvtop/sunxi_tvtop_power.c:220-286 | enabled if and only if clocks, bus clock, reset and power domain all answer 0, and 0 is returned exactly then; which step failed otherwise, and that every failure past the clock list leaves the clocks on |
| TvTop.Submodule.GetThenPut | drivers/tvtop/sunxi_tvtop_clk.c:275-349 | a get and its put leave all clocks off if the get succeeded; after a failure past the clock list all stay on |
| TvTop.Submodule.Disable | drivers/tvtop/sunxi_tvtop_power.c:436-485 | an enabled submodule goes off with its clocks; one that is not enabled is left alone |
| TvRefs.ClkRefs.UserGet | drivers/tvtop/sunxi_tvtop_clk.c:275-308 | keeps the count invariant whether or not enabling succeeds; the result is the enable result of a first get, tvdisp's own error before that of tvcap, and 0 for later gets |
| TvRefs.ClkRefs.UserPut | drivers/tvtop/sunxi_tvtop_clk.c:323-349 | keeps it, and does not disable tvcap while tvdisp has users |
| TvRefs.ClkRefs.StrayPut | drivers/tvtop/sunxi_tvtop_clk.c:323-349 | a put without a reference disables tvcap under tvdisp |
| TvRefs.CascadeSafety | drivers/tvtop/sunxi_tvtop_clk.c:275-349 | in every interleaving tvcap's count is its users plus the reference of tvdisp from nested get to nested put, enabled implies a positive count, and a step takes tvcap down under tvdisp if and only if it falls into the window before the nested get |
| TvRefs.DownUnderDispIff | drivers/tvtop/sunxi_tvtop_clk.c:275-349 | the same for one step from any state that satisfies the invariant |
| TvRefs.CapDownInWindow | drivers/tvtop/sunxi_tvtop_clk.c:275-349 | a run of entitled users that ends with tvdisp enabled and tvcap off |
| TvRefs.EveryRunCanEnd | drivers/tvtop/sunxi_tvtop_clk.c:323-349 | every run goes on, by puts and the nested calls they lead to, to no references and both submodules off |
| TvRefs.CapOnIff | drivers/tvtop/sunxi_tvtop_clk.c:275-349 | tvcap is enabled if and only if it has references and the get that took the first of them enabled it |
| TvRefs.DispOnIff | drivers/tvtop/sunxi_tvtop_clk.c:275-349 | tvdisp is enabled if and only if it has users and the get of the first of them enabled it |
| TvRefs.DispWithoutCapIff | drivers/tvtop/sunxi_tvtop_clk.c:275-349 | tvdisp is on with tvcap off if and only if the nested get is still to come and tvcap has no users, or the get that took the first present reference failed |
| TvRefs.CapNeverEnabled | drivers/tvtop/sunxi_tvtop_clk.c:275-349 | a run that ends with tvdisp on, two references to tvcap and tvcap off |

## Left out

- Trid_SMM_Free and the slot lookup of smmMalloc: they index page entries and slots differently from the allocator, so no round trip is decided by this code. Without them the list of free pages never holds more than its sentinel, and the branches that split or extend a free run are shown not to be entered rather than written out.
- Expired timed acquires in the handshake, apart from `BypassLosesMessage`.
- Local sends, channel-pool dispatch, component and listener calls: partial ports with little to prove.
- Software spinlocks: a locked region is one step.
- Null-pointer and magic-word guards at the head of the functions: the model starts after initialisation.
- Registers, interrupts, device mapping, procfs, ioctl copying: kernel and hardware plumbing.
- drivers/decd, audio, wifi, device-tree bindings, Python tools and archived copies.
- SmmRuns.AllocationSafety: quantifies over requests that do not wrap; `SmmTheory.LargeSafeIff` says exactly which large ones do. It is about the blocks as ranges; `SmmHeapCode.SharedHeap.Request` and `SmmSpills.SpillHitsLive` are about their contents.
- RoutineHistories.RegistrationInAnyHistory: histories without removals by pid or CPU; those are in `RoutineWipes.RegistrationAnywhere`, overlapping registrations in `RoutineRaces.RegisteredTwiceIff`.
- RoutineRaces.RegisteredTwiceIff: no removal before the check, because a removal can lose a key that is still in the table; `RoutineRaces.CopiesAreNet` has no such limit.
- Handshake.TokenLostOnlyByBailout: whether a RETURN finds its waiter is a free choice of the step; `WaitWakes.ReturnStrandsIff` decides it from the wait objects.
- TvTop.Submodule.Enable: one method for the three enable functions, which differ in register writes and in the power domain; register writes are not modelled.
- TvRefs.ClkRefs.UserGet: counts are unbounded; the 32-bit wrap of the reference count is not modelled.
