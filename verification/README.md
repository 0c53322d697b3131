# Verified model of SyncTools

A Dafny model of the four SyncTools headers: the multi-producer queue, the single-producer
queue, the futex mutex, and the object pools. The queues and the mutex are transition systems
with one step per atomic access, so the theorems hold for every interleaving of any number of
threads; the pools are classes over arrays whose copy loops are proved against a first-in
first-out list of free nodes.

## How the model is built

**Memory.** The queues run on release/acquire memory (`Memory.dfy`). Every atomic location keeps
all values ever stored to it. A thread has a view of the newest store it is known to have seen per
location, and a load may return that store or any later one. A release store publishes the
storing thread's view, an acquire load joins it. Slot storage is not atomic: an access is race free
exactly when the thread's view covers every earlier access to the slot (section 4.7.1
[intro.races] of ISO C++17). Relaxed accesses carry no view.

**Multi-producer queue** (`Mpsc*.dfy`). A state holds the modification orders of `_head`, `_tail`
and `_queue_status`, the cells, any number of producers and one consumer. An action names the
thread, the store a load returns and whether a weak compare-exchange fails spuriously, so a run
is a sequence of actions. The history variables `log` (reservations in compare-exchange order),
`popped`, `released`, `owner`, `retries` decide no step. The queue is proved safe in every run if
and only if it has at least two cells: with one cell, "published" (`pos + 1`) and "free"
(`pos + _size`) are the same number, and a second push constructs over a live object. The source's
compile-time check admits one cell.

**Single-producer queue** (`Spsc*.dfy`). Same memory; indices are stored reduced modulo the size,
as in the source. Every run is, event by event, a run of a bounded first-in first-out queue of
capacity size - 1.

**Mutex** (`FutexMutex.dfy`, `Mutex*.dfy`). Any number of threads each run a list of critical
sections. What a thread does under the lock is a parameter, given as small steps on unprotected
data, so that two threads inside would really interfere. Futex wait is an atomic compare-and-sleep
that may also return for no reason; futex wake wakes one sleeper of its choice. `MutexMemory.dfy`
adds happens-before clocks to the runs, `MutexOwner.dfy` stale loads of the owner fields.

**Pools.** `ObjectPool.dfy` is the circular buffer with its wrapped two-block copies, over arrays.
`ThreadCachedPool.dfy` puts one cache array per thread in front of it; `CachedPool.dfy` is the same on
values, with the live nodes, for statements over runs of many threads, and each operation on the
arrays is proved to be one step of it; `CachedSteps.dfy` lets other threads in between the
destructions of an operation and its section. `PoolSections.dfy` runs the pool's critical sections
one memory access at a time under the futex mutex.

**Methods beside the machines.** `MpscClient`, `SpscClient` and `MutexClient` contain the source's
functions as methods of classes: the thread's own accesses in program order, with a call of
`Others` before each, which runs any steps of the other threads. Each object has an environment: in
general the others move, loads may be stale and a weak compare-exchange may fail for no reason; with
`alone`, "undisturbed" below, none of that happens, and what an operation then does is stated
outright. The end of a queue's life is a step of the machines too: the consumer's thread may join a
producer's, or the one that stopped the queue, and then knows all that thread knew.

Where code and documentation differ, the model follows the code: the mutex is said to prevent
starvation (`README.md:240`), but barging compare-exchanges and an arbitrary choice of the woken
thread leave that open; `blocking_pop` is said to return nothing only if stopped and empty
(`include/sync_tools/mpsc_queue.hpp:322`, `include/sync_tools/spsc_queue.hpp:265`), which
`MpscShutdown.NothingButNotEmpty` and `SpscTheorems.NothingButNotEmpty` refute and the contracts of
`BlockingPop` and `JoinAndPop` make exact; and the single-producer queue is said to have capacity
`N` (`README.md:389`), but holds at most `N - 1` elements (`SpscTheorems.Linearizable`). Not spelled
out there: the pool's `release_batch` does not take the lock for an empty batch, and the cached
`acquire` passes its constructor arguments on only when it refills.

## Model

| member | source | states |
|---|---|---|
| MpscInvariant.InitInv | include/sync_tools/mpsc_queue.hpp:80-86 | a fresh queue of two or more cells, cell `i` marked free for position `i`, satisfies the invariant all later claims rest on (why one cell cannot, SafeIffTwoCells shows) |
| MpscInvariant.CasFindsFree | include/sync_tools/mpsc_queue.hpp:186-193 | a producer that wins the compare-exchange, on however old a load of `seq`, has reserved the next position in a cell that is released, raw, nobody's, and whose whole history happens before its next step |
| MpscInvariant.PublishedIsLast | include/sync_tools/mpsc_queue.hpp:262-268 | when the consumer sees `pos + 1`, that is the newest mark, the cell is nobody's and the position is reserved |
| MpscInvariant.StepInv | include/sync_tools/mpsc_queue.hpp:176-286 | each step of any producer, the consumer or `run`/`stop`, with any legal stale load and any spurious failure, keeps the invariant |
| MpscInvariant.StepCovered | include/sync_tools/mpsc_queue.hpp:176-286 | every step keeps the newest store to each `seq` known to the consumer or to some producer, so that joining them all synchronises the consumer with everything |
| MpscTheorems.SafeIffTwoCells | include/sync_tools/mpsc_queue.hpp:176-286 | every reachable state pops in reservation order, keeps `_tail <= _head <= _tail + _size`, makes only race-free slot accesses that find the slot raw or live as needed, and has no two threads in one cell, if and only if the queue has at least two cells |
| MpscTheorems.OneCellOverwrites | include/sync_tools/mpsc_queue.hpp:186-194 | the failing run at size 1: after one unpopped push, a second push is about to construct over the live object |
| MpscTheorems.FifoPerProducer | include/sync_tools/mpsc_queue.hpp:176-286 | what has been popped of one producer is a prefix of what it pushed, in its order |
| MpscTheorems.AnyStoreLoads | include/sync_tools/mpsc_queue.hpp:183-191 | the memory is as weak as claimed: a load may return every store not older than the newest its thread is bound to see, and a compare-exchange may always fail |
| MpscTheorems.RelaxedTellNothing | include/sync_tools/mpsc_queue.hpp:178-191 | the accesses to `_head`, `_tail` and the status order nothing about the cells |
| MpscTheorems.AccessesCounted | include/sync_tools/mpsc_queue.hpp:193-282 | every construction, move and destruction in a slot counts as one access to it, and nothing else counts or changes the slot, so that "ordered after every earlier access" leaves none out |
| MpscTheorems.LastMark | include/sync_tools/mpsc_queue.hpp:187-198 | a cell's newest mark is below a position of the current window exactly when the position is a full ring past the oldest unreleased one |
| MpscTheorems.RefusalExact | include/sync_tools/mpsc_queue.hpp:183-201 | with an up-to-date `seq` load and however old a `pos`, a push is refused if and only if `pos` is the current head and all cells are unreleased |
| MpscTheorems.RetriesCounted | include/sync_tools/mpsc_queue.hpp:183-206 | the number of retries is exactly that of reloads and of compare-exchanges that found another head, since the call first loaded the head |
| MpscClient.NewestSeq | include/sync_tools/mpsc_queue.hpp:186-199 | an up-to-date `seq` load at the head leads to the compare-exchange if there is room and to a refusal if there is none |
| MpscTheorems.RetriesArePaid | include/sync_tools/mpsc_queue.hpp:183-206 | lock-freedom in numbers: in `r` retries, spurious ones aside, a call has seen `_head` advance by at least `r` from the first value it loaded, and none of the reservations from that value on is its own |
| MpscShutdown.StopBound | include/sync_tools/mpsc_queue.hpp:117-120 | after a stop, with no later `run()`, no more places are reserved than there were producers already past the status check plus later calls whose relaxed load misses the stop |
| MpscShutdown.MissExact | include/sync_tools/mpsc_queue.hpp:262-285 | an up-to-date `seq` load of `try_pop` misses if and only if the queue is empty or the oldest place is reserved and not yet published |
| MpscShutdown.NothingButNotEmpty | include/sync_tools/mpsc_queue.hpp:319-342 | the run in which `blocking_pop` returns nothing from a stopped queue that holds an element, at every size: a push and the stop fall between its failed try and its status loads |
| MpscClient.OthersKeep | include/sync_tools/mpsc_queue.hpp:176-286 | steps of other threads never change a thread's own position and view, and only extend the reservation order |
| MpscClient.OthersAllow | include/sync_tools/mpsc_queue.hpp:176-286 | whatever the other threads do, the invariant holds, the caller stands where it stood and nothing recorded is undone: what every operation relies on between two of its accesses |
| MpscClient.OldestMark | include/sync_tools/mpsc_queue.hpp:262-268 | with no push under way, the newest mark of the oldest cell shows whether anything is left |
| MpscClient.NothingInFlight | include/sync_tools/mpsc_queue.hpp:191-194 | with no push between its compare-exchange and its publication, no place awaits publication, so that only later reservations can make `blocking_pop` miss an element |
| MpscClient.EmptyIsRaw | include/sync_tools/mpsc_queue.hpp:93-99 | a queue emptied by its consumer holds no live object in any cell |
| MpscClient.JoinSyncs | include/sync_tools/mpsc_queue.hpp:93-99 | a consumer that has joined all producers knows the newest store to every `seq` |
| MpscClient.Queue.constructor | include/sync_tools/mpsc_queue.hpp:80-86 | a fresh queue of any size, with the invariant in force from two cells on |
| MpscClient.Queue.Enter | include/sync_tools/mpsc_queue.hpp:178-183 | a call that sees Stopped ends at once with nothing reserved; any other has loaded a head value and still carries its own element |
| MpscClient.Queue.LoadSeqOf | include/sync_tools/mpsc_queue.hpp:186-205 | the sequence check refuses on the load it reports, goes for the compare-exchange at the same position, or reloads after a mark above it; undisturbed at the head, it goes on exactly if there is room |
| MpscClient.Queue.TryReserve | include/sync_tools/mpsc_queue.hpp:191 | won exactly when the head still has the expected value and the exchange does not fail for no reason; a win puts exactly the caller's value at the end of the reservation order, a loss changes nothing |
| MpscClient.Queue.FillAndPublish | include/sync_tools/mpsc_queue.hpp:193-195 | construction and publication of a reserved place reserve nothing further and end the call |
| MpscClient.Queue.Round | include/sync_tools/mpsc_queue.hpp:184-206 | one pass of the retry loop has pushed, refused, or is ready for another with the same value, and then reports the lost or failed compare-exchange or the mark above its position that came in its way |
| MpscClient.Queue.TryPush | include/sync_tools/mpsc_queue.hpp:176-207 | true exactly when one place was reserved for `v`, within this call; a refusal reports the `seq` or status load that was its reason, running out of rounds what came in the way of every single one; on a stopped queue it refuses; undisturbed, a running queue with room takes the value in the first round whose exchange does not fail for no reason, and one without room refuses |
| MpscClient.Queue.BlockingPush | include/sync_tools/mpsc_queue.hpp:128-144 | pushes the value once or not at all; once stopped it gives up in one round with nothing pushed; cut off, it reports the reason of every try; undisturbed, it pushes at once on a running queue with room |
| MpscClient.Queue.SeesStopped | include/sync_tools/mpsc_queue.hpp:132-134 | stopped exactly if both status loads return Stopped, each no older than what the producer had seen |
| MpscClient.Queue.TryPop | include/sync_tools/mpsc_queue.hpp:260-286 | a result is the value at the next position of the reservation order; without one nothing was taken, and the `seq` load it reports, made no earlier than the call, did not show the position published; undisturbed, it finds an element exactly if the oldest is published |
| MpscClient.Queue.Fetch | include/sync_tools/mpsc_queue.hpp:269-272 | the value moved out is the one reserved at the oldest position |
| MpscClient.Queue.BlockingPop | include/sync_tools/mpsc_queue.hpp:324-342 | at most one value is taken, the next in reservation order; once stopped it returns in one round; it gives up only on two loads of Stopped after a miss it reports; if that load was up to date, the queue is empty on return if and only if the oldest place was not reserved awaiting publication at the load and nothing has been reserved since; cut off, it reports a miss for every round |
| MpscClient.Queue.SeesStoppedC | include/sync_tools/mpsc_queue.hpp:334-336 | stopped exactly if both status loads return Stopped, each no older than what the consumer had seen |
| MpscClient.Queue.Restart | include/sync_tools/mpsc_queue.hpp:109-112 | the newest status is Running and nothing else has changed |
| MpscClient.Queue.Stop | include/sync_tools/mpsc_queue.hpp:117-120 | the newest status is Stopped and nothing else has changed |
| MpscClient.Queue.PopAlone | include/sync_tools/mpsc_queue.hpp:260-286 | once no push is under way and the producers are joined, a pop finds nothing if and only if nothing is left |
| MpscClient.Queue.BlockingPopAlone | include/sync_tools/mpsc_queue.hpp:324-342 | once the producers and the stopper are joined, `blocking_pop` returns in one round, with nothing if and only if the queue is empty |
| MpscClient.Queue.JoinAndPop | include/sync_tools/mpsc_queue.hpp:324-342 | where the documented promise does hold: from every reachable state with no push under way and the last status Stopped, joining the producers and the stopper and then calling `blocking_pop` gives nothing if and only if the queue is empty |
| MpscClient.Queue.Drain | include/sync_tools/mpsc_queue.hpp:93-99 | with the producers joined, the destructor's loop ends, yields exactly the values not yet popped in reservation order, so consumed plus drained is everything pushed, and leaves every cell raw |
| MpscClient.Queue.JoinProducers | include/sync_tools/mpsc_queue.hpp:93-99 | from any state with an idle consumer, joining the producers changes only what the consumer knows, and makes that everything |
| MpscClient.Queue.JoinAndDrain | include/sync_tools/mpsc_queue.hpp:93-99 | from every reachable state with no push under way and an idle consumer, joining the producers and destroying the queue yields the exact remainder in order and leaves no live object |
| SpscInvariant.NextMeets | include/sync_tools/spsc_queue.hpp:112-114 | comparing wrapped indices decides emptiness and fullness correctly for positions up to a ring apart |
| SpscInvariant.StepInv | include/sync_tools/spsc_queue.hpp:105-231 | every step of producer, consumer or `run`/`stop`, with any legal stale load, keeps the invariant |
| SpscTheorems.AlwaysSafe | include/sync_tools/spsc_queue.hpp:105-231 | in every reachable state pops are a prefix of pushes, at most size - 1 values are inside, slot accesses are race free and find the slot as they need it, and the slot being written is outside the readable range |
| SpscTheorems.AnyStoreLoads | include/sync_tools/spsc_queue.hpp:107-114 | a load may return every store not older than the newest its thread is bound to see |
| SpscTheorems.RelaxedTellNothing | include/sync_tools/spsc_queue.hpp:107-112 | a thread's loads of its own index and of the status order nothing about the slots |
| SpscTheorems.AccessesCounted | include/sync_tools/spsc_queue.hpp:119-258 | every construction, move and destruction in a slot counts as one access to it, and nothing else counts or changes the slot |
| SpscTheorems.LinearStep | include/sync_tools/spsc_queue.hpp:114-120 | each step performs exactly the queue operation attributed to it: a push at the head store, a pop at the tail store, a failed try at its load of the other index |
| SpscTheorems.Linearizable | include/sync_tools/spsc_queue.hpp:105-231 | every run is a legal run of a first-in first-out queue of capacity size - 1, failed tries included: a push fails exactly because the pops it has seen leave no room, a pop because it has seen no push beyond the last one popped |
| SpscTheorems.FailureExact | include/sync_tools/spsc_queue.hpp:112-117 | with an up-to-date load a push fails if and only if the queue is full and a pop if and only if it is empty; a stale load can only make them fail |
| SpscTheorems.WrapDifference | include/sync_tools/spsc_queue.hpp:334-339 | `(head + size - tail) & mask` recovers the distance of the two positions from their wrapped indices |
| SpscTheorems.SizeExact | include/sync_tools/spsc_queue.hpp:313-339 | from the latest indices `size` is the number of values inside, `empty` holds exactly when there is none and `full` exactly when there are size - 1 |
| SpscTheorems.StopBound | include/sync_tools/spsc_queue.hpp:97-110 | after a stop, with no later `run()`, no more pushes get in than one already past the status check plus later calls whose relaxed load misses the stop |
| SpscTheorems.MissExact | include/sync_tools/spsc_queue.hpp:208-214 | a head load of `try_pop` misses if and only if it returns the store of the last value popped, so an up-to-date one if and only if the queue is empty |
| SpscTheorems.NothingButNotEmpty | include/sync_tools/spsc_queue.hpp:262-283 | the run in which `blocking_pop` returns nothing from a stopped queue that holds an element, at every size from two up |
| SpscClient.Queue.constructor | include/sync_tools/spsc_queue.hpp:71 | a fresh queue with the invariant in force |
| SpscClient.Queue.TryPush | include/sync_tools/spsc_queue.hpp:105-122 | true exactly when `v` was appended; false leaves what was pushed as it was and reports the tail or status load that was its reason; on a stopped queue it refuses; undisturbed, it pushes exactly if the queue runs and has room |
| SpscClient.Queue.BlockingPush | include/sync_tools/spsc_queue.hpp:163-178 | appends the value once or not at all; once stopped it gives up in one round with nothing pushed; cut off, it reports the reason of every round; undisturbed, it pushes at once on a running queue with room |
| SpscClient.Queue.SeesStopped | include/sync_tools/spsc_queue.hpp:171-172 | stopped exactly if both status loads return Stopped, each no older than what the producer had seen |
| SpscClient.Queue.TryPop | include/sync_tools/spsc_queue.hpp:208-231 | a result is the oldest value not yet popped; without one nothing was taken, and the head load it reports, made no earlier than the call, equals the tail; undisturbed, it finds one exactly if the queue is not empty |
| SpscClient.Queue.BlockingPop | include/sync_tools/spsc_queue.hpp:267-283 | at most one value is taken, the oldest; once stopped it returns in one round; it gives up only on two loads of Stopped after a miss it reports; if that load was up to date, the queue is empty on return if and only if nothing has been pushed since; cut off, it reports a miss for every round |
| SpscClient.Queue.SeesStoppedC | include/sync_tools/spsc_queue.hpp:276-277 | stopped exactly if both status loads return Stopped, each no older than what the consumer had seen |
| SpscClient.Queue.Restart | include/sync_tools/spsc_queue.hpp:92 | the newest status is Running and nothing else has changed |
| SpscClient.Queue.Stop | include/sync_tools/spsc_queue.hpp:97 | the newest status is Stopped and nothing else has changed |
| SpscClient.Queue.PopAlone | include/sync_tools/spsc_queue.hpp:208-231 | with the producer finished and synchronised, a pop finds nothing if and only if nothing is left |
| SpscClient.Queue.BlockingPopAlone | include/sync_tools/spsc_queue.hpp:267-283 | once the pushes and the stop are finished and synchronised, `blocking_pop` returns in one round, with nothing if and only if the queue is empty |
| SpscClient.Queue.JoinAndPop | include/sync_tools/spsc_queue.hpp:267-283 | from every reachable state with both sides idle and the last status Stopped, joining the producer and the stopper and then calling `blocking_pop` gives nothing if and only if the queue is empty |
| SpscClient.Queue.Drain | include/sync_tools/spsc_queue.hpp:76-82 | the destructor's loop ends, yields exactly the remaining contents in order and leaves every slot raw |
| SpscClient.Queue.JoinAndDrain | include/sync_tools/spsc_queue.hpp:76-82 | from every reachable state with both sides idle, joining the producer and destroying the queue yields the exact contents in order and leaves no live object |
| MutexInvariant.StepInv | include/sync_tools/mutex.hpp:82-236 | every step of any thread, futex returns and wake-ups included, keeps exclusion, the owner fields, the wake-up guarantee and the record of what sections did |
| MutexTheorems.MutualExclusion | include/sync_tools/mutex.hpp:82-163 | at most one thread is between acquiring and releasing, the word is Free exactly when none is, and neither the recursion checks nor unlock's assertion ever fires for programs that lock and unlock in pairs |
| MutexTheorems.RecursionCaught | include/sync_tools/mutex.hpp:85-91 | for a thread inside, `_owner_set` is true, and `_owner` is still that thread after any steps of the others, so the two-load test would fire |
| MutexTheorems.NoLostWakeup | include/sync_tools/mutex.hpp:146-236 | while a thread sleeps, the word is Contended, or a wake-up is owed, or an awake thread is about to swap in Contended; and some awake thread still has work |
| MutexTheorems.CanFinish | include/sync_tools/mutex.hpp:82-236 | from every state that satisfies the invariant some continuation completes all programs |
| MutexTheorems.NeverStuck | include/sync_tools/mutex.hpp:146-236 | no reachable state is a deadlock: all programs can still be completed, sleepers included |
| MutexTheorems.Serializable | include/sync_tools/mutex.hpp:82-163 | the data is what the completed sections make of it when run alone, one after the other, in lock-acquisition order |
| MutexTheorems.CompletesOnce | include/sync_tools/mutex.hpp:82-163 | a section run alone has one outcome, so the serial order decides every result |
| MutexTheorems.AllSectionsRan | include/sync_tools/mutex.hpp:82-163 | when all programs of blocking locks are done, exactly as many sections have run as were asked for |
| MutexMemory.DataOrdered | include/sync_tools/mutex.hpp:92-104 | in every run, each access to the protected data happens after all earlier ones, ordered by the release and acquire accesses to `_state` alone, without the owner fields and without release sequences |
| MutexContention.CasTakesFree | include/sync_tools/mutex.hpp:92-94 | a compare-exchange takes a Free word as Locked and leaves any other alone |
| MutexContention.ExchangeContends | include/sync_tools/mutex.hpp:195-199 | the exchange always leaves Contended, takes a Free word, and sends the thread to wait on any other |
| MutexContention.SleepsIff | include/sync_tools/mutex.hpp:212-224 | a futex wait sleeps if and only if the word is still Contended |
| MutexContention.WakesIff | include/sync_tools/mutex.hpp:156-160 | the release frees the word and leads to a wake-up if and only if it was Contended |
| MutexContention.WakesOne | include/sync_tools/mutex.hpp:229-236 | a wake-up takes one sleeper to the exchange and moves no other thread |
| MutexContention.FutexAllows | include/sync_tools/mutex.hpp:212-236 | a futex wait may end for no reason at any time, and a wake-up may choose any sleeper |
| MutexContention.ContendedIsSwapped | include/sync_tools/mutex.hpp:92-200 | in every run the word is Contended only after some thread has swapped that in since the last release |
| MutexContention.FastPathOnly | include/sync_tools/mutex.hpp:82-163 | a run in which no thread reaches the exchange of the slow path makes no futex call and never sees the word Contended |
| MutexContention.SleeperIsWoken | include/sync_tools/mutex.hpp:171-236 | the slow path does happen: a run of two threads in which one spins 22 times, swaps in Contended and sleeps, and the other releases and is about to wake it |
| MutexMemory.LearnsByAcquire | include/sync_tools/mutex.hpp:92-157 | a thread comes to know of others' data accesses only by an acquire of `_state`, and then of no more than the last release published |
| MutexOwner.BindsOwnOnly | include/sync_tools/mutex.hpp:97-98 | a store to an owner field rules out older loads for its own thread only |
| MutexOwner.ChecksExact | include/sync_tools/mutex.hpp:85-91 | however stale the loads of `_owner` and `_owner_set`, the recursion test is silent for every thread outside and fires for every thread in its section, and `unlock`'s assertion holds |
| MutexCounter.CounterExact | tests/mutex_tests.cpp:29-53 | non-atomic increments under the lock: the final counter has grown by exactly the number of increments |
| MutexCounter.CounterIncrementsCorrectly | tests/mutex_tests.cpp:24-54 | `k` threads doing `m` increments each end with `k * m` in every run, and every run can be completed |
| MutexClient.Mutex.FirstTry | include/sync_tools/mutex.hpp:85-103 | after the recursion check and the first compare-exchange the thread has the word, found Free and left Locked, is about to spin, or was a `try_lock` that found the word not Free |
| MutexClient.Mutex.SpinLoop | include/sync_tools/mutex.hpp:173-193 | between 1 and 22 attempts; afterwards the thread has the word, or has made all 22 and goes on to swap in Contended; undisturbed, it gets a Free word at the first, as Locked |
| MutexClient.Mutex.WaitLoop | include/sync_tools/mutex.hpp:195-200 | leaves the loop only with the word acquired; undisturbed on a held word it is asleep, the word Contended |
| MutexClient.Mutex.FutexWait | include/sync_tools/mutex.hpp:212-224 | reports the state it was called in and how it ended: refused exactly if the word was not Contended there, otherwise after sleeping until woken by steps of others or by a signal, or still asleep and not returned |
| MutexClient.Mutex.LockSlow | include/sync_tools/mutex.hpp:171-207 | returns with the word acquired, or is still waiting when cut off; undisturbed on a held word it falls asleep and leaves Contended |
| MutexClient.Mutex.RecordOwner | include/sync_tools/mutex.hpp:97-98 | after the owner stores the thread holds the lock at the start of its section |
| MutexClient.Mutex.Lock | include/sync_tools/mutex.hpp:82-104 | when it returns, the caller is the holder, at the start of its section; undisturbed, it takes a Free word and leaves it Locked, and on a held one falls asleep and leaves it Contended |
| MutexClient.Mutex.TryLock | include/sync_tools/mutex.hpp:114-136 | true exactly when the caller is now the holder; false only right after a compare-exchange that found the word not Free no earlier than the call, and skips the section; undisturbed, true exactly if the word was Free |
| MutexClient.Mutex.DropOwner | include/sync_tools/mutex.hpp:149-152 | unlock's assertion passes and the owner fields are cleared before the word is released |
| MutexClient.Mutex.FutexWake | include/sync_tools/mutex.hpp:229-236 | in the state it reports, no earlier than the call, some sleeper existed and is now about to exchange, or nobody slept; the caller goes on to its next job |
| MutexClient.Mutex.Unlock | include/sync_tools/mutex.hpp:146-163 | no check fires, the caller is no longer the holder and its next job is up |
| MutexClient.Mutex.SwapInFree | include/sync_tools/mutex.hpp:156-160 | a wake-up call is made if and only if Contended was swapped out, in the state it reports |
| Pow2.PowerOfTwoCheck | include/sync_tools/mpsc_queue.hpp:46 | the compile-time check admits exactly the powers of two, and 0 |
| Pow2.MaskIsCell | include/sync_tools/object_pool.hpp:85 | masking with size - 1 is reduction modulo the size, for every power of two, so every masked index is in range |
| Pow2.RoundUpPow2 | include/sync_tools/object_pool.hpp:188-200 | the least power of two at or above `v`, for every `v` up to 2^63, and 1 for 0 |
| FreeRing.TakeFree | include/sync_tools/object_pool.hpp:84-86 | a single acquire removes the front of the free list and nothing else, at every head and wrap position |
| FreeRing.GiveFree | include/sync_tools/object_pool.hpp:100-102 | a single release appends to the free list and overwrites no available entry |
| FreeRing.TakeNFree | include/sync_tools/object_pool.hpp:117-134 | `n` single acquires equal one jump of the head by `n` and drop the first `n` free nodes |
| FreeRing.GiveAllFree | include/sync_tools/object_pool.hpp:159-171 | releasing items one at a time appends them in order |
| FreeRing.FrontBlocks | include/sync_tools/object_pool.hpp:122-132 | the front of the free list is one block of the buffer or two, split at the end |
| FreeRing.CopiedIsGiveAll | include/sync_tools/object_pool.hpp:159-170 | the split copy of a batch leaves the same buffer as releasing the items one at a time |
| ObjectPool.ConsistentTake | include/sync_tools/object_pool.hpp:117-138 | acquiring turns exactly the taken nodes from raw to live, so that a node stays raw exactly when free |
| ObjectPool.ConsistentGive | include/sync_tools/object_pool.hpp:154-171 | releasing different live nodes turns exactly them raw, keeps raw and free the same, and there is always room for them |
| ObjectPool.Pool.constructor | include/sync_tools/object_pool.hpp:51-62 | every node of the rounded-up size is free once, in order, and raw |
| ObjectPool.Pool.Acquire | include/sync_tools/object_pool.hpp:76-89 | hands out the longest-free node with a new object in what was raw storage, or nothing exactly when none is free |
| ObjectPool.Pool.Release | include/sync_tools/object_pool.hpp:96-103 | destroys exactly that object and appends its node to the free list |
| ObjectPool.Pool.CopyOut | include/sync_tools/object_pool.hpp:122-132 | one block or two, the output gets the first `num` free nodes in order and is otherwise unchanged |
| ObjectPool.Pool.AcquireBatch | include/sync_tools/object_pool.hpp:113-140 | the ring and results of as many single acquires as asked for or available, with a new object in each node and the rest of the output untouched |
| ObjectPool.Pool.CopyIn | include/sync_tools/object_pool.hpp:159-170 | one block or two, exactly the entries from the tail on receive the items |
| ObjectPool.Pool.ReleaseBatch | include/sync_tools/object_pool.hpp:148-172 | the ring of releasing the items one by one, with exactly their objects destroyed |
| CachedPool.AcquiredIsNew | include/sync_tools/object_pool.hpp:246-261 | an acquired object is a node that was not out: nothing is handed out twice |
| CachedPool.Partition | include/sync_tools/object_pool.hpp:246-289 | over any operations by any threads, also releasing on another thread, free list, caches and outstanding objects partition the nodes |
| CachedPool.LawfulStep | include/sync_tools/object_pool.hpp:246-289 | a refill constructs only in raw nodes, a give-back destroys only live objects, each node once |
| CachedPool.HandedOut | include/sync_tools/object_pool.hpp:250-258 | what a cached acquire hands out has just been constructed if and only if the cache was empty |
| CachedPool.AcquireTakesNewest | include/sync_tools/object_pool.hpp:246-261 | acquire hands out the newest entry of the cache, or the last of the batch from the front of the free list that refills an empty one; it fails exactly if both are empty; the lock is taken exactly if the cache was empty |
| CachedPool.ReleaseStacks | include/sync_tools/object_pool.hpp:268-276 | release puts the object on top of the cache; a full cache first gives its upper half, in order and destroyed, to the end of the free list, under one lock |
| CachedPool.FlushEmpties | include/sync_tools/object_pool.hpp:281-289 | flush leaves the cache empty and all it held at the end of the free list, destroyed, under one lock if there was anything |
| CachedPool.ReleasedIsNext | include/sync_tools/object_pool.hpp:258-275 | an acquire right after the same thread's release returns that object without the lock, whatever the other threads do in between |
| CachedPool.LifetimesAlternate | include/sync_tools/object_pool.hpp:246-289 | in every run of any number of threads construction and destruction take turns on each node, beginning with a construction, and a node is live exactly when it is outside the free list: out, or kept in some thread's cache |
| CachedSteps.GivesBackKept | include/sync_tools/object_pool.hpp:326-334 | no step of another thread changes what a thread is about to give back |
| CachedSteps.DestroyLawful | include/sync_tools/object_pool.hpp:154-157 | the object destroyed next, outside the lock, is there and nobody else has destroyed it |
| CachedSteps.CommitLawful | include/sync_tools/object_pool.hpp:135-138 | the nodes a refill constructs in hold no object, and no thread is working on them |
| CachedSteps.FineLifetimes | include/sync_tools/object_pool.hpp:246-289 | the same over every run in which the destructions of one release or flush fall between steps of other threads; a node without an object is free or on its way there |
| CachedSteps.FineIsCoarse | include/sync_tools/object_pool.hpp:246-289 | the sections of such a run, in their order, are a run of whole operations, so what is proved of those holds of these |
| CachedPool.FitsIff | include/sync_tools/object_pool.hpp:250-275 | no operation of any run indexes past the cache array if and only if min(BatchSize, size) <= CacheFlushThreshold and (CacheFlushThreshold >= 2 or there is one node or BatchSize is 0) |
| CachedPool.RoomInCache | include/sync_tools/object_pool.hpp:250-275 | for parameters that fit, every operation of every run finds the room in the caller's cache that the operations on the arrays ask for |
| CachedPool.ExhaustionGuarantee | include/sync_tools/object_pool.hpp:246-261 | a cached acquire fails if and only if every node is out or in another thread's cache; below size - (k-1) * CacheFlushThreshold outstanding objects it succeeds |
| CachedPool.LockIsLate | include/sync_tools/object_pool.hpp:250-275 | a global lock comes no sooner than a full gap after the thread's previous one |
| CachedPool.AmortisedLocking | include/sync_tools/object_pool.hpp:246-276 | with full refills and no flush, `n` operations of a thread take at most 1 + (n-1)/m global locks, m = min(BatchSize, CacheFlushThreshold/2, CacheFlushThreshold - BatchSize + 2), which is 1024 at the defaults |
| ThreadCachedPool.Pool.constructor | include/sync_tools/object_pool.hpp:232 | every node free and raw, all caches empty, no two threads sharing one |
| ThreadCachedPool.Pool.Refill | include/sync_tools/object_pool.hpp:250-255 | an empty cache receives the first batch of the free list, with new objects |
| ThreadCachedPool.Pool.Acquire | include/sync_tools/object_pool.hpp:246-261 | with any number of threads' caches, a step of the run theorems' machine: the newest entry of the caller's cache, its object as it was, or with an empty cache the last of a batch from the front of the free list, all constructed from the arguments, the rest of which stays cached; nothing exactly if both are empty; every other cache as it was |
| ThreadCachedPool.Pool.FlushHalf | include/sync_tools/object_pool.hpp:326-334 | the upper half of the cache goes to the end of the free list in order and is destroyed; the lower half stays |
| ThreadCachedPool.Pool.Release | include/sync_tools/object_pool.hpp:268-276 | of an object that is out, by whatever thread: it goes on top of the caller's cache and stays live; a full cache first gives its upper half to the end of the free list, in order and destroyed; every other cache as it was |
| ThreadCachedPool.Pool.Flush | include/sync_tools/object_pool.hpp:281-289 | the caller's cache is empty, all it held is destroyed and at the end of the free list in order, the lock is taken exactly if there was anything, and every other cache is as it was |
| PoolSections.SectionsEnd | include/sync_tools/object_pool.hpp:76-172 | every pool section ends, whatever state the ring is in |
| PoolSections.AcquireBatchAlone | include/sync_tools/object_pool.hpp:117-139 | the word-by-word copy of a batch acquire, run alone, ends as that many single acquires |
| PoolSections.ReleaseBatchAlone | include/sync_tools/object_pool.hpp:148-172 | the word-by-word copy of a batch release, run alone, ends as that many single releases |
| PoolSections.OnlyFifo | include/sync_tools/object_pool.hpp:76-172 | run alone, an operation has one outcome, that of the first-in first-out free list |
| PoolSections.LogConserves | include/sync_tools/object_pool.hpp:76-172 | as long as callers give back only what they hold, free list and callers together hold the same objects after every operation |
| PoolSections.HandedOutOnce | include/sync_tools/object_pool.hpp:79-88 | no object is handed out while a caller holds it, nor twice in one batch |
| PoolSections.PoolIsFifo | include/sync_tools/object_pool.hpp:79-171 | in every interleaving of the sections' memory accesses under the futex mutex, each operation returns what one first-in first-out free list gives at its place in the lock-acquisition order, and nothing is lost |
| PoolSections.PoolNeverStuck | include/sync_tools/object_pool.hpp:79-171 | no interleaving of pool operations is ever stuck |

## Left out

- MpscClient.Queue.TryPush: the retry loop is cut off after as many passes as `weak` has entries, which say where the weak compare-exchange fails for no reason, because no number of passes is enough in every run; MpscTheorems.RetriesArePaid bounds them by other producers' successes.
- MpscClient.Queue.BlockingPush: cut off after as many tries as `weak` has entries, because it may wait for ever.
- MpscClient.Queue.BlockingPop: cut off after `rounds` tries, because it may wait for ever.
- SpscClient.Queue.BlockingPush: cut off after `rounds` tries, because it may wait for ever.
- SpscClient.Queue.BlockingPop: cut off after `rounds` tries, because it may wait for ever.
- MutexClient.Mutex.Lock: cut off after `patience` futex waits, because the code does not bound them; MutexTheorems.NeverStuck says the wait can always end.
- MutexClient.Mutex.WaitLoop: cut off after `patience` futex waits, likewise.
- MutexClient.Mutex.LockSlow: cut off after `patience` futex waits, likewise.
- Queue storage in place: cells, indices and histories are one state value that the class methods replace, so that the other threads' steps can be stated; aliasing of queue storage is not modelled.
- Counters beyond 2^63 in the multi-producer queue (the signed subtraction): positions are natural numbers.
- Queues of size 0, which the compile-time check admits, and rounding up pool sizes above 2^63, which would shift by the full word width.
- `size`, `full` and `empty` of the multi-producer queue, and of the single-producer queue from indices that are not the latest: the two loads are no snapshot.
- Stale values of failed compare-exchanges on the mutex word: the mutex machine interleaves atomic accesses; MutexMemory adds what `_state` orders and MutexOwner the stale loads of the owner fields.
- A thread that locks a mutex it holds, or unlocks one it does not: programs lock and unlock in pairs, and the recursion test is only shown to fire.
- Fairness and starvation of the mutex, back-off pauses, branch hints, alignment, ThreadSanitizer notes, `errno` and `std::terminate`.
- Copy, move and output-reference variants of the operations, and constructors that throw.
- Object construction and destruction inside the word-by-word sections of PoolSections, which has the ring only; ObjectPool has them one operation at a time and CachedSteps between the sections of many threads.
- PoolSections.PoolIsFifo: assumes callers give back only what they hold, as `release` demands of them.
- ThreadCachedPool.Pool.Acquire: asks that a refill fit the cache array, which the source leaves unchecked; CachedPool.RoomInCache shows every run meets this for the parameters CachedPool.FitsIff names.
- ThreadCachedPool.Pool.Release: asks that the cache is not full or CacheFlushThreshold is at least 2, likewise.
- CachedPool.Partition: interleaves whole cached operations; CachedSteps takes them apart into single destructions and one step for the section with what the thread then does to its own cache.
- Several live pools of one type sharing a thread's cache, and caches that outlive their pool or thread.
- Benchmarks, wrappers around other libraries, examples and build files.
