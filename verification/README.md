# A verified model of generic-ebpf's concurrent core

generic-ebpf runs eBPF programs and their maps in the kernel and in user space.
This project models the parts of it, and of the Concurrency Kit 0.6.0 and gmock
sources it ships, whose correctness rests on an argument rather than on reading
the code, and proves that argument.

- **Epoch reclamation** (`Epoch`, `EpochSafety`, `EpochTheorems`,
  `EpochDiscipline`): a transition system of single memory accesses by any number
  of records. Begin, end, call, synchronize, barrier and poll interleave freely,
  scans race with each other and with new records, and compare-and-swaps get
  lost.
- **The hash map** (`HashMap`, `HashMapOps`, `HashMapWalk`): buckets of linked
  elements, a preallocated pool and a spare element per CPU, as a class that
  refines a finite map. `HashMapWriters` and `HashMapConservation` run one writer
  per CPU against each other at the granularity of the locks; `ListStores` looks
  at a bucket after every single pointer store. `Allocator` is the pool,
  `JenkinsHash` and `JenkinsHashPaths` the hash function.
- **Reference counts** (`RefCounts`, `RefCountsOps`) of environments, maps and
  programs.
- **ck_hs** (`HashSet`, `HashSetProbe`, `HashSetOps`), the open-addressing set.
- **The ring** (`Ring`, `RingWrapped`), **the phase-fair lock** (`PhaseFairLock`,
  `PhaseFairLimit`) and **the dissemination barrier** (`Barrier`, `BarrierProtocol`, `BarrierLimit`),
  as transition systems of atomic accesses, and gmock's **maximum bipartite
  matching** (`Matching`).
- `Bits` has the 32-bit arithmetic they share, `Collections` small facts about
  sequences and maps.

Concurrent code is a datatype of states, a set of steps with guards, and an
invariant that every step keeps; theorems are about every state of every finite
run. Memory is sequentially consistent. Fields marked as history record what
happened. Code that updates an object in place is a class,
and its methods are proved against a function of the old state.

Four results give the exact limits of the code. Callbacks deferred to an epoch
are safe exactly when no thread polls inside a read section
(`EpochDiscipline.SafeIffPollingOutside`; the manual page of `ck_epoch_poll` does
not forbid it, and `PollInsideSectionUnsafe` is a run that then goes wrong). The
barrier is safe exactly for at most 2^31 threads (`BarrierLimit.SafeUpTo31Bits`).
The ring is first in first out exactly when its heads move less than 2^32 during
any one operation (`RingWrapped.FifoIffBelow32Bits`; `StaleDequeue` is a run in
which more entries come out than went in). The phase-fair lock is exclusive
exactly for fewer than 2^24 concurrent readers and at most 2^32 concurrent writers
(`PhaseFairLimit.ExclusiveIff`).

Clocks, memory allocation, hash callbacks and the current CPU are parameters, and
so is what a machine makes of a shift by 64 bits or more.
The map is proved for every hash function, ck_hs for every hash and key function.

## Model

| member | source | states |
|---|---|---|
| EpochSafety.StepKeeps | extern/ck-0.6.0/src/ck_epoch.c:304-545 | every atomic access of every operation keeps the epoch invariant, including what an unfinished scan has visited and the window inside begin where `active` is set and `epoch` is stale |
| EpochSafety.RunInv | extern/ck-0.6.0/src/ck_epoch.c:41-127 | the invariant holds in every state of every run in which polls are made outside read sections |
| EpochSafety.TwoTicks | extern/ck-0.6.0/src/ck_epoch.c:41-127 | once the global epoch has moved two past a snapshot of open sections, all of them have ended |
| EpochSafety.PollListEnded | extern/ck-0.6.0/src/ck_epoch.c:507-545 | the pending list that a poll dispatches, taken modulo four, holds only callbacks deferred at least three epochs ago, so their sections have ended |
| EpochTheorems.SectionsTrailByOne | extern/ck-0.6.0/src/ck_epoch.c:106-111 | in every reachable state every open read section is at the global epoch or one behind |
| EpochTheorems.SynchronizeWaits | extern/ck-0.6.0/src/ck_epoch.c:387-505 | when synchronize or barrier has made its final store, by whichever exit, every read section open at the call has ended |
| EpochTheorems.CallbacksWait | extern/ck-0.6.0/src/ck_epoch.c:343-368 | whenever poll or barrier runs a callback, every section open when ck_epoch_call loaded the epoch for it has ended |
| EpochTheorems.LedgerInv | extern/ck-0.6.0/include/ck_epoch.h:183-196 | in every state each callback deferred so far is in exactly one place: a pending list, the batch being run, or already run; the statistics agree |
| EpochTheorems.CallbacksRunAtMostOnce | extern/ck-0.6.0/src/ck_epoch.c:343-368 | no callback of a record runs twice in any run |
| EpochTheorems.NothingIsLost | extern/ck-0.6.0/src/ck_epoch.c:343-368 | between operations a record's pending and dispatch counters are exactly what is pending and what has run |
| EpochDiscipline.StrictIsSafe | extern/ck-0.6.0/src/ck_epoch.c:487-545 | with polls outside read sections no callback ever runs while a section open at its deferral is still open |
| EpochDiscipline.PollInsideSectionUnsafe | extern/ck-0.6.0/src/ck_epoch.c:507-545 | a concrete run in which a reader polls inside its section, moves its own record forward, and another thread's barrier then runs a callback that the section still needs |
| EpochDiscipline.SafeIffPollingOutside | extern/ck-0.6.0/doc/ck_epoch_poll:33-58 | callbacks are safe in all runs if and only if callers poll outside read sections |
| Matching.MaxBipartiteMatchState.TryAugment | extern/googletest/googlemock/src/gmock-matchers.cc:292-316 | success keeps left_ and right_ mutually inverse, matches the root, unmatches nobody and touches no dead region; failure changes nothing and leaves a closed set of visited nodes that all are matched |
| Matching.MaxBipartiteMatchState.Compute | extern/googletest/googlemock/src/gmock-matchers.cc:240-271 | trying every left node once yields a maximum matching, listed by left node; the check that the left node is unused never fires |
| Matching.MaxBipartiteMatchState.Collect | extern/googletest/googlemock/src/gmock-matchers.cc:262-270 | the result lists exactly the matched pairs, in order of their left nodes |
| Matching.FindMaxBipartiteMatching | extern/googletest/googlemock/src/gmock-matchers.cc:338-340 | for every bipartite graph the result is a matching and no matching is larger |
| Matching.AugmentKeepsDead | extern/googletest/googlemock/src/gmock-matchers.cc:292-316 | a later augmentation leaves every dead region as it was |
| Matching.FailureExtendsDead | extern/googletest/googlemock/src/gmock-matchers.cc:292-316 | a failed search adds its visited nodes to the dead region, which then confines the root |
| Matching.DeadRegionsProveMaximum | extern/googletest/googlemock/src/gmock-matchers.cc:240-271 | the dead right nodes and the left nodes matched elsewhere cover every edge and are as many as the matched pairs, so the matching is maximum |
| Bits.RoundUpExact | sys/dev/ebpf/ebpf_util.h:28-39 | the shift-and-or rounding gives the power of two with the ceiling logarithm for 1 to 2^31, and 0 for every other 32-bit value |
| Bits.CeilLog2IsLeast | extern/ck-0.6.0/src/ck_internal.h:50-61 | that power is no smaller than the argument and half of it is smaller |
| Bits.RoundUp | extern/ck-0.6.0/src/ck_internal.h:50-61 | the rounding as ck_internal_power_2 performs it |
| Bits.SmearDoubles | sys/dev/ebpf/ebpf_util.h:31-36 | one step `n = n or n shifted` doubles the number of leading ones and keeps the bit length |
| Bits.LogOfPower | extern/ck-0.6.0/src/ck_internal.h:38-48 | the logarithm of a power of two, by five masks and shifts joined with or, is its exponent |
| Bits.MaskIsModulo | sys/dev/ebpf/ebpf_map_hashtable.c:60-64 | masking with a power of two less one is the remainder |
| Barrier.RoundsEnough | extern/ck-0.6.0/src/ck_barrier_dissemination.c:36-76 | for every 32-bit thread count, 2 to the number of rounds covers the count if and only if the count is at most 2^31, and one round fewer never does |
| Barrier.SizeOf | extern/ck-0.6.0/src/ck_barrier_dissemination.c:90-94 | for every 32-bit thread count the number of rounds is the ceiling of its log2, or none at all for 0 and above 2^31 |
| Barrier.PartnerOf | extern/ck-0.6.0/src/ck_barrier_dissemination.c:54-65 | the masked and the divided form both name the thread `offset` ahead on the ring |
| Barrier.Init | extern/ck-0.6.0/src/ck_barrier_dissemination.c:36-76 | for every 32-bit thread count every thread's row holds the partner at distance 2^k for every round k, and all flags are cleared |
| BarrierProtocol.StepKeeps | extern/ck-0.6.0/src/ck_barrier_dissemination.c:97-130 | every store, load and leave keeps the invariant that ties flags to the number of stores by the partner |
| BarrierProtocol.WaitMeans | extern/ck-0.6.0/src/ck_barrier_dissemination.c:107-119 | a thread's wait ends exactly when its partner has stored in this episode, across the reuse of flags by parity and sense |
| BarrierProtocol.NobodyLeavesEarly | extern/ck-0.6.0/src/ck_barrier_dissemination.c:97-130 | with enough rounds, in every run, for any thread count and number of episodes, nobody leaves an episode that somebody has not entered |
| BarrierProtocol.NoDeadlock | extern/ck-0.6.0/src/ck_barrier_dissemination.c:97-130 | with enough rounds, in every reachable state some thread can take its next step |
| BarrierLimit.RowIsStep | extern/ck-0.6.0/src/ck_barrier_dissemination.c:54-65 | the partner that initialisation puts in a row is the one whose flag the barrier step stores to |
| BarrierLimit.TooFewRounds | extern/ck-0.6.0/src/ck_barrier_dissemination.c:97-130 | with more threads than 2 to the number of rounds there is a run in which a thread leaves the first episode although another has not entered it |
| BarrierLimit.SafeIffEnoughRounds | extern/ck-0.6.0/src/ck_barrier_dissemination.c:97-130 | nobody leaves early in any run if and only if 2 to the number of rounds covers the thread count |
| BarrierLimit.SafeUpTo31Bits | extern/ck-0.6.0/src/ck_barrier_dissemination.c:36-130 | with the rounds that the code computes, the barrier is safe if and only if there are at most 2^31 threads |
| Ring.StepKeeps | extern/ck-0.6.0/include/ck_ring.h:166-298 | on unbounded counters, which the ring of 32-bit counters refines, every atomic access of producers and consumers keeps the ring invariant, with entries copied word by word |
| Ring.FirstInFirstOut | extern/ck-0.6.0/include/ck_ring.h:166-298 | on unbounded counters and for any size, the values returned, in order of consumer compare-and-swap, are the first of the values claimed, in order of producer compare-and-swap; occupancy stays below the size |
| Ring.PublishedStays | extern/ck-0.6.0/include/ck_ring.h:166-298 | on unbounded counters a published entry is intact in its slot until the dequeue that returns it |
| Ring.FullMeans | extern/ck-0.6.0/include/ck_ring.h:166-218 | on a current snapshot the masked test reports full exactly when size less one entries are claimed |
| Ring.EmptyMeans | extern/ck-0.6.0/include/ck_ring.h:262-298 | on unbounded counters a consumer that reports empty saw no published entry left |
| RingWrapped.StepWraps | extern/ck-0.6.0/include/ck_ring.h:166-298 | an access on 32-bit counters and masks does to the wrapped state what the unbounded access does, if its compare-and-swap is less than 2^32 behind; a consumer may take the ring for empty |
| RingWrapped.FirstInFirstOut32 | extern/ck-0.6.0/include/ck_ring.h:166-298 | on 32-bit counters, in every run in which each head moves less than 2^32 during one operation, what was returned is the first part of what was claimed and occupancy stays below the size |
| RingWrapped.PublishedStays32 | extern/ck-0.6.0/include/ck_ring.h:166-298 | in those runs an entry between c_head and p_tail is intact in its slot until the dequeue that returns it |
| RingWrapped.EmptyMeans32 | extern/ck-0.6.0/include/ck_ring.h:262-298 | on 32-bit counters a consumer that reports empty saw no published entry left, in every run in which each head moves at most 2^32 less the size during one operation |
| RingWrapped.StaleDequeue | extern/ck-0.6.0/include/ck_ring.h:262-298 | for every ring of two slots or more a run in which a consumer sleeps while c_head moves by exactly 2^32; its compare-and-swap succeeds and more entries come out than went in |
| RingWrapped.FifoIffBelow32Bits | extern/ck-0.6.0/include/ck_ring.h:166-298 | first in first out in all runs with fewer than `limit` moves of each head per operation if and only if `limit` is at most 2^32, or the ring has a single slot and never takes an entry |
| PhaseFairLock.StepKeeps | extern/ck-0.6.0/include/ck_pflock.h:70-140 | with fewer than 2^24 concurrent readers and at most 2^32 writers every atomic access keeps the lock invariant across 32-bit wrap-around of all four counters |
| PhaseFairLock.WritersExclude | extern/ck-0.6.0/include/ck_pflock.h:84-108 | with fewer than 2^24 concurrent readers and at most 2^32 writers a writer never holds the lock together with any other holder |
| PhaseFairLock.BlockedReaderGoesFirst | extern/ck-0.6.0/include/ck_pflock.h:119-140 | while a reader blocked by one write phase still waits, no writer of another phase holds the lock |
| PhaseFairLock.BlockedReaderReleased | extern/ck-0.6.0/include/ck_pflock.h:119-140 | a blocked reader can pass exactly when the phase that blocked it has been withdrawn, even if the next writer has announced itself |
| PhaseFairLimit.TooManyReaders | extern/ck-0.6.0/include/ck_pflock.h:84-140 | with 2^24 readers inside, rin and rout agree again and a writer acquires the lock |
| PhaseFairLimit.TooManyWriters | extern/ck-0.6.0/include/ck_pflock.h:84-140 | with 2^32 writers queued behind the holder, the last one passes the queue, its announcement carries out of the writer bits, and a reader gets in |
| PhaseFairLimit.ExclusiveIff | extern/ck-0.6.0/include/ck_pflock.h:70-140 | where there are readers, no run shares the lock with a writer if and only if there are fewer than 2^24 concurrent readers and at most 2^32 writers, or no writers |
| JenkinsHash.MixReversible | sys/dev/ebpf/ebpf_jhash.h:113-121 | the mixing step has a left inverse on all 32-bit triples |
| JenkinsHash.UnmixReversible | sys/dev/ebpf/ebpf_jhash.h:113-121 | and a right inverse, so it is a bijection |
| JenkinsHash.FinalReversible | sys/dev/ebpf/ebpf_jhash.h:148-157 | the final mixing has a left inverse |
| JenkinsHash.UnfinalReversible | sys/dev/ebpf/ebpf_jhash.h:148-157 | and a right inverse |
| JenkinsHash.StatesStayApart | sys/dev/ebpf/ebpf_jhash.h:187-330 | different internal states that absorb the same bytes end different |
| JenkinsHash.OneBlockNeverCollides | sys/dev/ebpf/ebpf_jhash.h:187-330 | two keys of equal length that differ only inside one 12-byte block end with different triples, for every length and initial value |
| JenkinsHashPaths.AddWord | sys/dev/ebpf/ebpf_jhash.h:221-235 | a masked 32-bit read adds exactly the key's bytes, in either byte order |
| JenkinsHashPaths.AddHalves | sys/dev/ebpf/ebpf_jhash.h:255-283 | the 16-bit reads and single bytes of a tail add the same word |
| JenkinsHashPaths.AddBytes | sys/dev/ebpf/ebpf_jhash.h:309-324 | so do the fall-through cases of the byte path, little-endian |
| JenkinsHashPaths.AddBytesBig | sys/dev/ebpf/ebpf_jhash.h:415-430 | and big-endian |
| JenkinsHashPaths.HashPath | sys/dev/ebpf/ebpf_jhash.h:187-330 | on every read path the block loop and the last block compute the hash of the key's bytes |
| JenkinsHashPaths.JenkinsHashOf | sys/dev/ebpf/ebpf_jhash.h:340-436 | whatever the key's alignment and byte order, the result depends on the key's bytes only, not on the path or on what follows the key |
| Allocator.BlockAllocator.Prealloc | sys/dev/ebpf/ebpf_allocator.c:78-136 | exactly nblocks blocks (2^32 of them when nblocks is 0, since the counter wraps), aligned when the block size is; they are pairwise disjoint and the remaining size never underflows if a segment of one block has a 32-bit size, and exactly then each lies inside a segment behind its header |
| Allocator.BlockAllocator.CarveSegment | sys/dev/ebpf/ebpf_allocator.c:113-130 | the blocks carved from one segment stay in it and do not overlap any earlier block |
| Allocator.BlockAllocator.Alloc | sys/dev/ebpf/ebpf_allocator.c:138-152 | the first free block, or none exactly when the count is zero; the count stays the length of the free list where it was |
| Allocator.BlockAllocator.Free | sys/dev/ebpf/ebpf_allocator.c:154-162 | the block becomes the first free one; the count stays the list's length |
| HashMapOps.HashTable.constructor | sys/dev/ebpf/ebpf_map_hashtable.c:137-241 | an empty map whose bucket count is the least power of two that holds max_entries, with bucket index the hash modulo that count; it is usable if and only if max_entries is at most 2^31, beyond which it has no bucket; every CPU gets a spare element if and only if max_entries and CPUs together stay below 2^32 |
| HashMapOps.HashTable.Lookup | sys/dev/ebpf/ebpf_map_hashtable.c:285-321 | the value stored under the key in the finite map, or none |
| HashMapOps.HashTable.Update | sys/dev/ebpf/ebpf_map_hashtable.c:346-390 | EEXIST, ENOENT, EBUSY or success by flags, presence and fullness; EBUSY for a new key exactly when max_entries keys are stored; on success the finite map changes at the key only |
| HashMapOps.HashTable.Delete | sys/dev/ebpf/ebpf_map_hashtable.c:475-502 | the finite map loses the key and nothing else |
| HashMapOps.HashTable.GetNextKey | sys/dev/ebpf/ebpf_map_hashtable.c:504-541 | the successor in bucket-then-list order; the first key after no key or an absent one; none at the end |
| HashMapOps.HashTable.OrderIsContents | sys/dev/ebpf/ebpf_map_hashtable.c:504-541 | that order lists every stored key exactly once |
| HashMapOps.HashTable.Deinit | sys/dev/ebpf/ebpf_map_hashtable.c:243-283 | every element returns to the pool, so the allocator's check of its count passes |
| HashMapOps.HashTable.AllKeys | sys/dev/ebpf/ebpf_map_hashtable.c:504-541 | asking for the key after the last answer, from no key until there is none, lists every stored key once, in the walk's order |
| HashMapWalk.WalkYieldsAll | sys/dev/ebpf/ebpf_map_hashtable.c:504-541 | the successor function, iterated from no key over an order without repetitions, gives its n-th key on call n and none after the last |
| HashMap.InsertOk | sys/dev/ebpf/ebpf_map_hashtable.c:371-383 | taking a free element and linking it keeps the invariant and adds the key to the finite map |
| HashMap.ReplaceOk | sys/dev/ebpf/ebpf_map_hashtable.c:364-385 | swapping in the spare element keeps every element in one place and changes the finite map at the key only |
| HashMap.RemoveOk | sys/dev/ebpf/ebpf_map_hashtable.c:487-501 | unlinking and freeing keeps the invariant and removes the key |
| HashMapWriters.PlacesKept | sys/dev/ebpf/ebpf_map_hashtable.c:346-390 | every step of concurrent writers keeps every element where it belongs |
| HashMapWriters.NeverStuck | sys/dev/ebpf/ebpf_map_hashtable.c:475-502 | a writer past its lock can always take its next step |
| HashMapConservation.ExactlyOnePlace | sys/dev/ebpf/ebpf_map_hashtable.c:221-232 | in every run each of the max_entries + ncpus elements is in exactly one of the free list, a spare slot, a bucket or a writer's hand |
| HashMapConservation.SwapException | sys/dev/ebpf/ebpf_map_hashtable.c:78-85 | between the swap and the unlinking the spare slot names an element that is still linked in the bucket whose lock the CPU holds |
| HashMapConservation.UpdateDecides | sys/dev/ebpf/ebpf_map_hashtable.c:358-377 | among concurrent writers an update refuses, replaces or inserts exactly as flags, presence of the key and the pool say at that moment |
| HashMapConservation.KeysChangeOnce | sys/dev/ebpf/ebpf_map_hashtable.c:346-390 | the stored keys change only at the step that links a new key or unlinks a deleted one |
| HashMapConservation.NoDuplicateKeys | sys/dev/ebpf/ebpf_map_hashtable.c:346-390 | a bucket whose lock is free holds no key twice |
| HashMapConservation.AtMostMaxEntries | sys/dev/ebpf/ebpf_map_hashtable.c:346-390 | the distinct linked keys are at most max_entries, in every state of every run |
| HashMapConservation.PoolEmptyMeans | sys/dev/ebpf/ebpf_map_hashtable.c:371-377 | the pool is empty exactly when stored keys and elements in other writers' hands add up to max_entries |
| HashMapConservation.TeardownCount | sys/dev/ebpf/ebpf_allocator.c:52-58 | once the writers are done, free, spare and linked elements add up to the number of blocks |
| ListStores.Bucket.InsertHead | extern/ck-0.6.0/include/ck_queue.h:394-401 | after each store a forward traversal sees the old list or the new one, and the list ends well linked |
| ListStores.Bucket.Remove | extern/ck-0.6.0/include/ck_queue.h:403-407 | after the first store a traversal sees the list without the element, and the list ends well linked |
| ListStores.Bucket.Overwrite | sys/dev/ebpf/ebpf_map_hashtable.c:380-385 | what a traversal sees after each store of an overwrite |
| ListStores.OverwriteNeverMisses | sys/dev/ebpf/ebpf_map_hashtable.c:380-385 | after every store of an overwrite a lookup finds the old value, and from the head's store on the new one, never neither; other keys are found as before |
| RefCountsOps.Runtime.Release | sys/dev/ebpf/ebpf_obj.c:37-46 | the object disappears exactly when its last reference goes; only counts of other surviving objects change |
| RefCountsOps.Runtime.Drop | sys/dev/ebpf/ebpf_obj.c:37-46 | a release, also from inside a program's destructor, keeps all counts equal to the references there are |
| RefCountsOps.Runtime.ReleaseMaps | sys/dev/ebpf/ebpf_prog.c:22-31 | a program's destructor releases each attached map once and leaves none listed |
| RefCountsOps.Runtime.Attach | sys/dev/ebpf/ebpf_prog.c:84-109 | EINVAL across environments, EBUSY when 64 maps are attached, EEXIST for an attached map, in that order; else the map is appended and gains a reference |
| RefCountsOps.Runtime.DestroyEnv | sys/dev/ebpf/ebpf_env.c:41-50 | destroying an environment succeeds exactly when none of its objects is alive |
| RefCountsOps.Runtime.CreateProg | sys/dev/ebpf/ebpf_prog.c:33-73 | a new program with one reference and no attached map joins its environment |
| RefCounts.LiveIffReferenced | sys/dev/ebpf/ebpf_obj.c:21-46 | an object is alive exactly while a client's handle or a live program refers to it; otherwise its destructor has run, and never more than once |
| RefCounts.EmptyEnv | sys/dev/ebpf/ebpf_env.c:41-64 | an environment's count is zero exactly when no object of it is alive |
| RefCounts.LetGoKeeps | sys/dev/ebpf/ebpf_prog.c:22-31 | in the middle of a program's destructor counts still equal references |
| HashSet.BoundSetCovers | extern/ck-0.6.0/src/ck_hs.c:272-307 | after recording a probe length the bound covers it and no other bound shrinks, also when the byte saturates |
| HashSet.StoreOk | extern/ck-0.6.0/src/ck_hs.c:817-831 | storing a new key in the first free slot keeps every stored key within its bound with no empty slot before it |
| HashSet.MoveOk | extern/ck-0.6.0/src/ck_hs.c:759-776 | so does moving a key to an earlier tombstone |
| HashSet.RemoveOk | extern/ck-0.6.0/src/ck_hs.c:888-896 | so does a removal |
| HashSetProbe.StrideIsBits | extern/ck-0.6.0/src/ck_hs.c:256-269 | the stride in shifts and masks of the hash, bit by bit, with the shift by one more than the logarithm of the capacity, is the sum used here, for every level that C defines |
| HashSetProbe.LineCovered | extern/ck-0.6.0/src/ck_hs.c:434-438 | the eight probes of a cache line visit exactly its eight slots |
| HashSetProbe.NewSize | extern/ck-0.6.0/src/ck_hs.c:180-184 | a power of two from 8 to 2^31 that covers any capacity up to 2^31; eight slots for a multiple of 2^32 |
| HashSetProbe.Crowded | extern/ck-0.6.0/src/ck_hs.c:256-269 | in a table of 2^31 slots a key whose first 65 cache lines hold no free slot has at least 264 stored keys in its way |
| HashSetProbe.JammedMeansMany | extern/ck-0.6.0/src/ck_hs.c:365-372 | 2^31 slots can be too few only for a set of at least 264 objects |
| HashSetProbe.OddCapacityWraps | extern/ck-0.6.0/src/ck_hs.c:365-372 | a capacity of 2^30 + 1 first gives 2^31 slots and after n restarts 2^n, for every n from 3 to 31 |
| HashSetProbe.Restarts | extern/ck-0.6.0/src/ck_hs.c:365-372 | doubling goes through the table sizes up to 2^31 and then on to multiples of 2^32 |
| HashSetProbe.DoublingEnds | extern/ck-0.6.0/src/ck_hs.c:365-372 | the doubled capacities run out after at most 64 restarts, since doubling drops the top bit of 64 |
| HashSetOps.Scan | extern/ck-0.6.0/src/ck_hs.c:401-509 | where the probe loop ends, for each behaviour, and which tombstone it met first; without any slot every position within the limit holds an object |
| HashSetOps.ObjectSet.Probe | extern/ck-0.6.0/src/ck_hs.c:401-509 | a default or insert probe finds the key's object exactly when the key is stored, and otherwise the slot, if there is one within the limit, that may take it |
| HashSetOps.ObjectSet.Get | extern/ck-0.6.0/src/ck_hs.c:853-878 | the object stored under the key, or none |
| HashSetOps.ObjectSet.FindPlace | extern/ck-0.6.0/src/ck_hs.c:749-758 | probing and growing by turns ends, also at 2^31 slots where the doubled capacity wraps, with the key's object or a slot that may take it, unless the allocator refused a table or 2^31 slots are not enough |
| HashSetOps.ObjectSet.PutWith | extern/ck-0.6.0/src/ck_hs.c:793-850 | put and put_unique: never over a stored key; on success the set gains exactly the object, on failure it is unchanged; a new key fails only if the allocator refused a table or 2^31 slots are not enough |
| HashSetOps.ObjectSet.Set | extern/ck-0.6.0/src/ck_hs.c:737-790 | the object replaces the one of the same key, which is returned; fails only for a new key, and only if the allocator refused a table or 2^31 slots are not enough |
| HashSetOps.ObjectSet.FetchAndStore | extern/ck-0.6.0/src/ck_hs.c:622-652 | succeeds exactly for a stored key, and replaces its object |
| HashSetOps.ObjectSet.Remove | extern/ck-0.6.0/src/ck_hs.c:880-898 | the set loses the key, whose object is returned |
| HashSetOps.ObjectSet.Count | extern/ck-0.6.0/src/ck_hs.c:153-158 | n_entries is the number of stored keys |
| HashSetOps.ObjectSet.Grow | extern/ck-0.6.0/src/ck_hs.c:310-380 | the set is the same before and after, through every restart with a doubled capacity; restarts come to an end; asked for no less than the present size and at most 2^31 it fails only if the allocator refused a table or 2^31 slots are not enough; the new table has the capacity asked for if that is a table size or 2^31 slots are enough; growing to a multiple of 2^32 succeeds only for at most eight objects |
| HashSetOps.Init | extern/ck-0.6.0/src/ck_hs.c:920-941 | an empty set with a table for the entries asked for, if and only if the allocator grants that table |

## Left out

- Weak memory ordering and fences: the model is sequentially consistent.
- Epoch section objects, record recycling and unregistering, and callbacks that call the epoch functions themselves: not used by the runtime.
- EpochTheorems.CallbacksWait: the deferral is the moment ck_epoch_call loads the epoch, not the later push on the pending list; a section that begins in between is not waited for.
- Ring.StepKeeps: the counters are unbounded; RingWrapped.StepWraps ties the steps on 32-bit counters to these.
- Ring.FirstInFirstOut: unbounded counters; RingWrapped.FirstInFirstOut32 is the 32-bit form.
- Ring.PublishedStays: unbounded counters; RingWrapped.PublishedStays32 is the 32-bit form.
- Ring.EmptyMeans: unbounded counters; RingWrapped.EmptyMeans32 is the 32-bit form.
- Ring and RingWrapped: a `false` result of an enqueue as proof that the ring is full, which a stale snapshot can give spuriously; single-producer and single-consumer forms.
- PhaseFairLock: that a waiting thread is eventually scheduled.
- PhaseFairLimit.ExclusiveIff: more than 2^32 writers without a single reader.
- The per-CPU value variants of the hash map: an in-kernel insert leaves other CPUs' values of a reused element as they were.
- Readers that keep an element while it is freed and reused: the free-list link overlaps the bucket link, so no linearizable lock-free lookup is claimed.
- HashMapOps.HashTable.constructor: the overflow check of the element size and failures to allocate; for element sizes within sixteen bytes of 2^32, which that check lets through, nothing is promised of the elements.
- HashMapWalk.WalkYieldsAll: it is about any order without repetitions; HashMapOps.HashTable.AllKeys is about the table.
- Allocator.BlockAllocator.Prealloc: failures of calloc or of an element constructor; in blocks of fewer than eight bytes the links of neighbouring free blocks overlap, and `free` is then the blocks carved, not what the broken list yields.
- RefCountsOps.Runtime.CreateMap: failure of the map type's own initialisation; null and malformed arguments of all creation functions.
- HashSetOps.ObjectSet.Grow: when the capacity is no table size and 2^31 slots are not enough, the new table is only promised to hold the objects; HashSetProbe.OddCapacityWraps shows how the sizes tried come down.
- HashSetProbe: a shift by 64 bits or more, undefined in C and reached after 65 cache lines, has an arbitrary but fixed value.
- ck_hs iteration, apply, garbage collection, pointer packing, the tombstone statistic and the generation counters that concurrent readers use.
- The interpreter, the array map, the other queues, stacks and hash tables of Concurrency Kit, the platform layer and the rest of googletest.
